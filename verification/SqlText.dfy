/** PostgreSQL's text functions as the Drive migration uses them on the keys of chunk rows. */
module SqlText {
  /** `REPLACE(s, old, new)`. */
  function Replace(s: string, from: string, to: string): string
    decreases |s|
  {
    if from == "" || s == "" then s
    else if from <= s then to + Replace(s[|from|..], from, to)
    else [s[0]] + Replace(s[1..], from, to)
  }

  predicate OccursAt(part: string, text: string, i: nat) { i + |part| <= |text| && text[i..i + |part|] == part }

  lemma {:induction false} ReplaceFront(from: string, rest: string, to: string)
    requires from != ""
    ensures Replace(from + rest, from, to) == to + Replace(rest, from, to)
  {
    assert (from + rest)[|from|..] == rest;
  }

  lemma {:induction false} ReplaceSkips(c: char, s: string, from: string, to: string)
    requires from != "" && !OccursAt(from, [c] + s, 0)
    ensures Replace([c] + s, from, to) == [c] + Replace(s, from, to)
  {
    assert ([c] + s)[1..] == s;
    assert |from| <= |[c] + s| ==> ([c] + s)[0..0 + |from|] == ([c] + s)[..|from|];
  }

  lemma {:induction false} OccursLater(c: char, part: string, text: string, j: nat)
    ensures OccursAt(part, [c] + text, j + 1) <==> OccursAt(part, text, j)
  {
    if j + |part| <= |text| { assert ([c] + text)[j + 1..j + 1 + |part|] == text[j..j + |part|]; }
  }

  /** Replacing goes from left to right: the leftmost occurrence is replaced, and then what follows it. */
  lemma {:induction false} ReplaceLeftmost(a: string, from: string, rest: string, to: string)
    requires from != "" && forall j: nat | j < |a| :: !OccursAt(from, a + (from + rest), j)
    ensures Replace(a + (from + rest), from, to) == a + (to + Replace(rest, from, to))
    decreases |a|
  {
    if a == "" {
      ReplaceFront(from, rest, to);
      assert a + (from + rest) == from + rest && a + (to + Replace(rest, from, to)) == to + Replace(rest, from, to);
    } else {
      var tail := a[1..] + (from + rest);
      assert a + (from + rest) == [a[0]] + tail;
      forall j: nat | j < |a[1..]| ensures !OccursAt(from, tail, j) {
        OccursLater(a[0], from, tail, j);
        assert !OccursAt(from, a + (from + rest), j + 1);
      }
      ReplaceSkips(a[0], tail, from, to);
      ReplaceLeftmost(a[1..], from, rest, to);
      Reassembled(a, to + Replace(rest, from, to));
    }
  }

  lemma {:induction false} Reassembled(a: string, b: string)
    requires a != ""
    ensures [a[0]] + (a[1..] + b) == a + b
  {}

  /** `s LIKE pattern`: `_` is any character, `%` any text, a backslash quotes the next character. */
  predicate Like(s: string, pattern: string)
    decreases |s| + |pattern|
  {
    if pattern == "" then s == ""
    else if pattern[0] == '%' then Like(s, pattern[1..]) || (s != "" && Like(s[1..], pattern))
    else if s == "" then false
    else if pattern[0] == '_' then Like(s[1..], pattern[1..])
    else if pattern[0] == '\\' && |pattern| > 1 then s[0] == pattern[1] && Like(s[1..], pattern[2..])
    else s[0] == pattern[0] && Like(s[1..], pattern[1..])
  }

  function ChunkPattern(id: string): string { id + "__%" }

  /** Every backslash of the pattern has a character to quote. */
  predicate Whole(pattern: string) {
    pattern == "" || if pattern[0] == '\\' then |pattern| > 1 && Whole(pattern[2..]) else Whole(pattern[1..])
  }

  /** The first `n` characters match one pattern, the others another one. */
  predicate CutMatches(s: string, p: string, q: string, n: nat) {
    n <= |s| && Like(s[..n], p) && Like(s[n..], q)
  }

  /** Two patterns in a row match two texts in a row. */
  lemma {:induction false} LikeInRow(s: string, p: string, q: string)
    requires Whole(p)
    ensures Like(s, p + q) <==> exists n: nat :: CutMatches(s, p, q, n)
    decreases |s| + |p|
  {
    if p == "" {
      assert p + q == q && s[0..] == s && s[..0] == "";
      assert Like(s, q) ==> CutMatches(s, p, q, 0);
      assert forall n: nat :: CutMatches(s, p, q, n) ==> s[..n] == "";
    } else if p[0] == '%' {
      assert (p + q)[1..] == p[1..] + q;
      LikeInRow(s, p[1..], q);
      if s != "" { LikeInRow(s[1..], p, q); }
      forall n: nat
        ensures CutMatches(s, p, q, n) <==>
                  CutMatches(s, p[1..], q, n) || (n > 0 && s != "" && CutMatches(s[1..], p, q, n - 1))
      {
        PercentCut(s, p, q, n);
      }
      if n: nat :| s != "" && CutMatches(s[1..], p, q, n) { PercentCut(s, p, q, n + 1); }
    } else {
      LikeOne(s, p, q);
    }
  }

  lemma {:induction false} PercentCut(s: string, p: string, q: string, n: nat)
    requires p != "" && p[0] == '%'
    ensures CutMatches(s, p, q, n) <==>
              CutMatches(s, p[1..], q, n) || (n > 0 && s != "" && CutMatches(s[1..], p, q, n - 1))
  {
    if 0 < n <= |s| { FirstGone(s, n); }
  }

  lemma {:induction false} FirstGone(s: string, n: nat)
    requires 0 < n <= |s|
    ensures s[..n][1..] == s[1..][..n - 1] && s[n..] == s[1..][n - 1..] && s[..n][0] == s[0]
  {}

  /** A pattern that begins with a single character or a quoted one. */
  lemma {:induction false} LikeOne(s: string, p: string, q: string)
    requires p != "" && p[0] != '%' && Whole(p)
    ensures Like(s, p + q) <==> exists n: nat :: CutMatches(s, p, q, n)
    decreases |s| + |p|, 0
  {
    var used := if p[0] == '\\' then 2 else 1;
    assert (p + q)[used..] == p[used..] + q;
    if s == "" {
      assert !Like(s, p + q) && forall n: nat :: !CutMatches(s, p, q, n);
    } else {
      var fits := if used == 2 then s[0] == p[1] else p[0] == '_' || s[0] == p[0];
      assert Like(s, p + q) <==> fits && Like(s[1..], p[used..] + q);
      LikeInRow(s[1..], p[used..], q);
      forall n: nat ensures CutMatches(s, p, q, n) ==> fits && n > 0 && CutMatches(s[1..], p[used..], q, n - 1) {
        if 0 < n <= |s| { FirstGone(s, n); }
      }
      forall n: nat ensures fits && CutMatches(s[1..], p[used..], q, n) ==> CutMatches(s, p, q, n + 1) {
        if n < |s| { FirstGone(s, n + 1); }
      }
    }
  }

  /** Neither `%` nor a backslash occurs; underscores, which Drive ids may hold, are allowed. */
  predicate IsPlain(s: string) { '%' !in s && '\\' !in s }

  /** The key begins with the id, read with every underscore as any character, and has two more characters. */
  predicate Covers(id: string, key: string) {
    |key| >= |id| + 2 && forall i | 0 <= i < |id| :: id[i] == '_' || key[i] == id[i]
  }

  lemma {:induction false} LikeAnything(s: string)
    ensures Like(s, "%")
  {
    if s != "" { LikeAnything(s[1..]); }
  }

  lemma {:induction false} LikeTwoMore(s: string)
    ensures Like(s, "__%") <==> |s| >= 2
  {
    assert "__%"[1..] == "_%" && "_%"[1..] == "%";
    if |s| >= 2 { LikeAnything(s[1..][1..]); }
  }

  /** The front of the key matches the id as a pattern, and what follows is long enough. */
  predicate TakesAt(id: string, key: string, n: nat) {
    n + 2 <= |key| && if Whole(id) then Like(key[..n], id) else key[n] == '_' && Like(key[..n], id[..|id| - 1])
  }

  /**
   Exactly what the chunk pattern takes, for every id: one that ends in a lone backslash quotes the first
   underscore.
   */
  lemma {:induction false} ChunkPatternTakes(key: string, id: string)
    ensures Like(key, ChunkPattern(id)) <==> exists n: nat :: TakesAt(id, key, n)
  {
    if Whole(id) {
      LikeInRow(key, id, "__%");
      forall n: nat ensures CutMatches(key, id, "__%", n) <==> TakesAt(id, key, n) {
        if n <= |key| { LikeTwoMore(key[n..]); }
      }
    } else {
      LoneBackslash(id);
      var front := id[..|id| - 1];
      assert ChunkPattern(id) == front + "\\__%";
      LikeInRow(key, front, "\\__%");
      forall n: nat ensures CutMatches(key, front, "\\__%", n) <==> TakesAt(id, key, n) {
        if n <= |key| { LikeQuotedMore(key[n..]); }
      }
    }
  }

  lemma {:induction false} LoneBackslash(id: string)
    requires !Whole(id)
    ensures id != "" && id[|id| - 1] == '\\' && Whole(id[..|id| - 1])
  {
    if id != "\\" {
      var used := if id[0] == '\\' then 2 else 1;
      LoneBackslash(id[used..]);
      assert id[..|id| - 1][used..] == id[used..][..|id| - 1 - used];
    }
  }

  lemma {:induction false} LikeQuotedMore(s: string)
    ensures Like(s, "\\__%") <==> |s| >= 2 && s[0] == '_'
  {
    assert "\\__%"[2..] == "_%" && "_%"[1..] == "%";
    if |s| >= 2 { LikeAnything(s[1..][1..]); }
  }

  /**
   What the chunk pattern takes: the underscores meant as a separator match anything, and so do those
   of the id itself.
   */
  lemma {:induction false} ChunkPatternMatches(key: string, id: string)
    requires IsPlain(id)
    ensures Like(key, ChunkPattern(id)) <==> Covers(id, key)
  {
    if id == "" {
      assert ChunkPattern(id) == "__%";
      LikeTwoMore(key);
    } else {
      assert ChunkPattern(id)[0] == id[0] && ChunkPattern(id)[1..] == ChunkPattern(id[1..]);
      if key != "" {
        ChunkPatternMatches(key[1..], id[1..]);
        CoversTail(id, key);
      }
    }
  }

  lemma {:induction false} CoversTail(id: string, key: string)
    requires id != "" && key != ""
    ensures Covers(id, key) <==> (id[0] == '_' || key[0] == id[0]) && Covers(id[1..], key[1..])
  {
    if Covers(id[1..], key[1..]) {
      assert forall i | 1 <= i < |id| :: id[1..][i - 1] == id[i] && key[1..][i - 1] == key[i];
    }
  }

  lemma {:induction false} LikeItself(s: string)
    requires '\\' !in s
    ensures Like(s, s) && Whole(s)
  {
    if s != "" {
      LikeItself(s[1..]);
      if s[0] == '%' { assert Like(s[1..], s) <== Like(s[1..], s[1..]); }
    }
  }
}
