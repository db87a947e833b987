/**
 Writing Wikipedia pages into zip files (backend/scripts/get_wikidocs.py): names that are safe and
 do not clash within a zip, and zips that are full but for the last.
 */
module WikiZips {
  import opened Counting
  import opened Lists
  import opened Outcomes
  import Text

  // ---------------------------------------------------------------- file names

  predicate IsSafe(c: char) { 'a' <= c <= 'z' || 'A' <= c <= 'Z' || '0' <= c <= '9' || c == '_' || c == '-' }

  predicate AllSafe(s: string) { forall i | 0 <= i < |s| :: IsSafe(s[i]) }

  /** Each run of white space becomes one underscore. */
  function Underscored(s: string): string {
    if s == "" then ""
    else if !Text.IsSpace(s[0]) then [s[0]] + Underscored(s[1..])
    else if |s| > 1 && Text.IsSpace(s[1]) then Underscored(s[1..])
    else "_" + Underscored(s[1..])
  }

  /** Characters outside the safe set are dropped. */
  function SafeOnly(s: string): (r: string)
    ensures AllSafe(r)
  {
    if s == "" then "" else (if IsSafe(s[0]) then [s[0]] else "") + SafeOnly(s[1..])
  }

  const MAX_NAME: nat := 200

  /** `sanitize_filename`: always a name that is short, safe and not empty. */
  function Sanitized(title: string): (r: string)
    ensures r != "" && |r| <= MAX_NAME && AllSafe(r)
  {
    var safe := SafeOnly(Underscored(title));
    var short := if |safe| > MAX_NAME then safe[..MAX_NAME] else safe;
    if short == "" then "untitled" else short
  }

  lemma {:induction false} SafeStays(s: string)
    requires AllSafe(s)
    ensures Underscored(s) == s && SafeOnly(s) == s
  {
    if s != "" {
      assert AllSafe(s[1..]);
      SafeStays(s[1..]);
      assert [s[0]] + s[1..] == s;
    }
  }

  /** A name that is already safe and short is kept, so sanitising again changes nothing. */
  lemma {:induction false} SanitizedIsStable(title: string)
    ensures Sanitized(Sanitized(title)) == Sanitized(title)
  {
    SafeStays(Sanitized(title));
  }

  predicate LacksSpace(s: string) { forall i | 0 <= i < |s| :: !Text.IsSpace(s[i]) }

  /** Text without white space stays, and a run of white space becomes one underscore, wherever it stands. */
  lemma {:induction false} UnderscoredRun(word: string, run: string, rest: string)
    requires LacksSpace(word) && Text.AllSpace(run) && (rest == "" || !Text.IsSpace(rest[0]))
    ensures Underscored(word + run + rest) == word + (if run == "" then "" else "_") + Underscored(rest)
    decreases |word| + |run|
  {
    var s := word + run + rest;
    if word != "" {
      assert s[1..] == word[1..] + run + rest;
      UnderscoredRun(word[1..], run, rest);
    } else if run != "" {
      assert s[1..] == "" + run[1..] + rest;
      UnderscoredRun("", run[1..], rest);
      assert |run| > 1 ==> s[1] == run[1];
    } else {
      assert s == rest;
    }
  }

  lemma {:induction false} SafeOnlyPicks(s: string)
    ensures PicksOut(s, SafeOnly(s), IsSafe)
  {
    if s != "" {
      SafeOnlyPicks(s[1..]);
      if IsSafe(s[0]) {
        assert SafeOnly(s)[1..] == SafeOnly(s[1..]);
      } else {
        assert SafeOnly(s) == "" + SafeOnly(s[1..]) == SafeOnly(s[1..]);
      }
    }
  }

  /** The name holds the safe characters of the title in order, up to the limit, and is "untitled" without any. */
  lemma {:induction false} SanitizedKeeps(title: string, safe: string)
    requires PicksOut(Underscored(title), safe, IsSafe)
    ensures Sanitized(title) == if safe == "" then "untitled" else if |safe| > MAX_NAME then safe[..MAX_NAME] else safe
  {
    SafeOnlyPicks(Underscored(title));
    PicksOutOne(Underscored(title), SafeOnly(Underscored(title)), safe, IsSafe);
  }

  /** Position of the last dot, or -1. */
  function LastDot(s: string): (r: int)
    ensures -1 <= r < |s|
    ensures r >= 0 ==> s[r] == '.'
    ensures forall i | r < i < |s| :: s[i] != '.'
  {
    if s == "" then -1 else if s[|s| - 1] == '.' then |s| - 1 else LastDot(s[..|s| - 1])
  }

  /** `os.path.splitext` of a name without separators: a dot after nothing but dots starts no extension. */
  function SplitExt(s: string): (r: (string, string))
    ensures r.0 + r.1 == s
  {
    var i := LastDot(s);
    if i < 0 || (forall j | 0 <= j < i :: s[j] == '.') then (s, "") else (s[..i], s[i..])
  }

  /** The `k`-th name tried for a page: the plain one, then with `_1`, `_2`, ... before the extension. */
  function Candidate(name: string, k: nat): string {
    if k == 0 then name + ".txt" else name + "_" + Text.Decimal(k) + ".txt"
  }

  lemma {:induction false} ExtensionOf(name: string)
    requires name != "" && '.' !in name
    ensures SplitExt(name + ".txt") == (name, ".txt")
  {
    var s := name + ".txt";
    assert s[|name|] == '.' && s[0] == name[0];
    assert forall i | |name| < i < |s| :: s[i] != '.';
    assert LastDot(s) == |name|;
    assert s[..|name|] == name && s[|name|..] == ".txt";
  }

  lemma {:induction false} CandidatesDiffer(name: string, j: nat, k: nat)
    requires Candidate(name, j) == Candidate(name, k)
    ensures j == k
  {
    if j > 0 && k > 0 {
      var dj, dk := Text.Decimal(j), Text.Decimal(k);
      assert |dj| == |dk|;
      assert forall i | 0 <= i < |dj| :: dj[i] == Candidate(name, j)[|name| + 1 + i] == dk[i];
      assert dj == dk;
      Text.DecimalInjective(j, k);
    }
  }

  // ---------------------------------------------------------------- a free name

  datatype Entry = Entry(name: string, content: string)

  type Zip = seq<Entry>

  function Names(z: Zip): set<string> { set e | e in z :: e.name }

  /** The name settled on: the first candidate that is not taken. */
  ghost predicate FirstFree(taken: set<string>, name: string, filename: string) {
    exists k: nat :: filename == Candidate(name, k) && Candidate(name, k) !in taken && AllTaken(taken, name, k)
  }

  ghost predicate AllTaken(taken: set<string>, name: string, k: nat) {
    forall j: nat | j < k :: Candidate(name, j) in taken
  }

  /**
   The loop over duplicate names ends whatever the zip holds: each turn finds one more of its
   names among the pairwise different candidates, so there are at most |taken| turns.
   */
  method FreeName(title: string, taken: set<string>) returns (filename: string)
    ensures FirstFree(taken, Sanitized(title), filename)
    ensures filename !in taken
  {
    var sanitized := Sanitized(title);
    filename := sanitized + ".txt";
    var base := filename;
    var counter := 1;
    ghost var seen: set<string> := {};
    while filename in taken
      invariant counter >= 1
      invariant filename == Candidate(sanitized, counter - 1)
      invariant AllTaken(taken, sanitized, counter - 1)
      invariant seen <= taken && |seen| == counter - 1
      invariant forall s | s in seen :: exists j: nat :: j < counter - 1 && s == Candidate(sanitized, j)
      decreases |taken| - |seen|
    {
      ExtensionOf(sanitized);
      if filename in seen {
        var j: nat :| j < counter - 1 && filename == Candidate(sanitized, j);
        CandidatesDiffer(sanitized, j, counter - 1);
        assert false;
      }
      seen := seen + {filename};
      SubsetSize(seen, taken);
      var (name, ext) := SplitExt(base);
      filename := name + "_" + Text.Decimal(counter) + ext;
      counter := counter + 1;
    }
  }

  // ---------------------------------------------------------------- the zips

  /** A page of the dataset; a missing title is replaced by one made from the position. */
  datatype Page = Page(title: Option<string>, text: string)

  function TitleOf(p: Page, i: nat): string { if p.title.Some? then p.title.value else "page_" + Text.Decimal(i) }

  function ContentOf(p: Page, i: nat): string { "Title: " + TitleOf(p, i) + "\n\n" + p.text }

  function Contents(pages: seq<Page>): (r: seq<string>)
    ensures |r| == |pages|
  {
    seq(|pages|, i requires 0 <= i < |pages| => ContentOf(pages[i], i))
  }

  function Texts(z: Zip): (r: seq<string>)
    ensures |r| == |z|
  {
    seq(|z|, i requires 0 <= i < |z| => z[i].content)
  }

  /** Everything written, zip after zip. */
  function Written(zips: seq<Zip>): seq<string> {
    if zips == [] then [] else Written(zips[..|zips| - 1]) + Texts(zips[|zips| - 1])
  }

  ghost predicate DistinctNames(z: Zip) {
    forall i, j | 0 <= i < j < |z| :: z[i].name != z[j].name
  }

  /** A page that goes to its own zip, when the size asked for is not positive. */
  function ZipSize(perZip: int): (r: nat)
    ensures r >= 1
  {
    if perZip > 1 then perZip else 1
  }

  function Processed(total: int, available: nat): nat {
    if total <= 0 then 0 else if total < available then total else available
  }

  ghost predicate WellPacked(zips: seq<Zip>, size: nat) {
    && (forall i | 0 <= i < |zips| :: DistinctNames(zips[i]) && 0 < |zips[i]| <= size)
    && (forall i | 0 <= i < |zips| - 1 :: |zips[i]| == size)
  }

  lemma {:induction false} WrittenCounts(zips: seq<Zip>, size: nat)
    requires WellPacked(zips, size) && zips != [] && size > 0
    ensures |Written(zips)| == (|zips| - 1) * size + |zips[|zips| - 1]|
  {
    var n := |zips| - 1;
    var rest := zips[..n];
    if n > 0 {
      assert forall i | 0 <= i < n :: rest[i] == zips[i];
      WrittenCounts(rest, size);
      assert rest[n - 1] == zips[n - 1];
      assert (n - 1) * size + size == n * size;
    } else {
      assert Written(rest) == [];
    }
  }

  /** Puts a page at the end of the open zip. */
  lemma {:induction false} AddToLast(zips: seq<Zip>, e: Entry, size: nat)
    requires WellPacked(zips, size) && zips != [] && |zips[|zips| - 1]| < size
    requires e.name !in Names(zips[|zips| - 1])
    ensures var more := zips[..|zips| - 1] + [zips[|zips| - 1] + [e]];
            WellPacked(more, size) && Written(more) == Written(zips) + [e.content]
  {
    var n := |zips| - 1;
    var more := zips[..n] + [zips[n] + [e]];
    assert more[..n] == zips[..n] && more[n] == zips[n] + [e];
    assert forall i | 0 <= i < n :: more[i] == zips[i];
    assert Texts(zips[n] + [e]) == Texts(zips[n]) + [e.content];
    forall i | 0 <= i < |zips[n]| ensures zips[n][i].name != e.name {
      assert zips[n][i] in zips[n];
    }
  }

  lemma {:induction false} StartZip(zips: seq<Zip>, e: Entry, size: nat)
    requires WellPacked(zips, size) && size > 0
    requires zips != [] ==> |zips[|zips| - 1]| == size
    ensures WellPacked(zips + [[e]], size) && Written(zips + [[e]]) == Written(zips) + [e.content]
  {
    var more := zips + [[e]];
    assert more[..|zips|] == zips && more[|zips|] == [e];
    assert forall i | 0 <= i < |zips| :: more[i] == zips[i];
    assert Texts([e]) == [e.content];
  }

  /** Pages in the zip that is open, none at the start. */
  function Open(zips: seq<Zip>): nat { if zips == [] then 0 else |zips[|zips| - 1]| }

  /** One turn of the loop over the pages: into a new zip when there is none yet or the open one is full. */
  method WritePage(zips: seq<Zip>, inCurrent: nat, page: Page, idx: nat, perZip: int)
    returns (more: seq<Zip>, nowInCurrent: nat)
    requires WellPacked(zips, ZipSize(perZip)) && inCurrent == Open(zips)
    ensures WellPacked(more, ZipSize(perZip)) && nowInCurrent == Open(more) && more != []
    ensures Written(more) == Written(zips) + [ContentOf(page, idx)]
    ensures var e := more[|more| - 1][Open(more) - 1];
            FirstFree(Names(more[|more| - 1][..Open(more) - 1]), Sanitized(TitleOf(page, idx)), e.name)
  {
    var size := ZipSize(perZip);
    var starts := inCurrent == 0 || inCurrent >= perZip;
    var current := if starts then [] else zips[|zips| - 1];
    var filename := FreeName(TitleOf(page, idx), Names(current));
    var e := Entry(filename, ContentOf(page, idx));
    if starts {
      StartZip(zips, e, size);
      more := zips + [[e]];
    } else {
      AddToLast(zips, e, size);
      more := zips[..|zips| - 1] + [current + [e]];
    }
    nowInCurrent := |current| + 1;
    assert (current + [e])[..|current|] == current;
    assert more[|more| - 1] == current + [e];
  }

  lemma {:induction false} ContentsSnoc(pages: seq<Page>, i: nat)
    requires i < |pages|
    ensures Contents(pages[..i + 1]) == Contents(pages[..i]) + [ContentOf(pages[i], i)]
  {
  }

  lemma {:induction false} ZipCount(zips: seq<Zip>, size: nat)
    requires WellPacked(zips, size) && size > 0
    ensures |zips| == Ceiling(|Written(zips)|, size)
  {
    if zips == [] {
      CeilingOfNone(size);
    } else {
      WrittenCounts(zips, size);
      CeilingOf(|zips| - 1, |zips[|zips| - 1]|, size);
    }
  }

  /**
   `stream_wikipedia_to_zips`: the pages taken are written once each, in order, the zips are
   full but for the last, and their number is the ceiling. The closing message needs the last
   position, which an empty dataset never sets.
   */
  method StreamToZips(pages: seq<Page>, total: int, perZip: int) returns (zips: seq<Zip>, message: Result<int>)
    ensures Written(zips) == Contents(pages[..Processed(total, |pages|)])
    ensures WellPacked(zips, ZipSize(perZip))
    ensures |zips| == Ceiling(Processed(total, |pages|), ZipSize(perZip))
    ensures message == if pages == [] then Err("unbound") else Ok(if total < |pages| then total else |pages|)
  {
    zips := [];
    var inCurrent := 0;
    var idx := 0;
    assert Written(zips) == Contents(pages[..0]);
    while idx < |pages| && idx < total
      invariant 0 <= idx <= Processed(total, |pages|)
      invariant inCurrent == Open(zips)
      invariant WellPacked(zips, ZipSize(perZip))
      invariant Written(zips) == Contents(pages[..idx])
    {
      zips, inCurrent := WritePage(zips, inCurrent, pages[idx], idx, perZip);
      ContentsSnoc(pages, idx);
      idx := idx + 1;
    }
    ZipCount(zips, ZipSize(perZip));
    message := Report(pages, total, idx);
  }

  /** The closing message, from the last position the loop over the dataset reached. */
  method Report(pages: seq<Page>, total: int, idx: nat) returns (message: Result<int>)
    requires idx == Processed(total, |pages|)
    ensures message == if pages == [] then Err("unbound") else Ok(if total < |pages| then total else |pages|)
  {
    if pages == [] {
      return Err("unbound");
    }
    var position := if idx < |pages| then idx else |pages| - 1;
    message := Ok(if total < position + 1 then total else position + 1);
  }
}
