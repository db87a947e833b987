/** `filter_tenants_by_range` of alembic/env.py: which tenants one migration worker takes. */
module TenantRange {
  import opened Counting
  import opened Lists
  import opened Outcomes

  const TENANT_ID_PREFIX := "tenant_"

  predicate IsTenant(id: string) { TENANT_ID_PREFIX <= id }

  /** Python's order on strings: by code point. */
  predicate Less(a: string, b: string) {
    b != "" && (a == "" || a[0] < b[0] || (a[0] == b[0] && Less(a[1..], b[1..])))
  }

  /** The first place at which two strings differ, or the end of the shorter one. */
  predicate DifferAt(a: string, b: string, k: nat) {
    k <= |a| && k <= |b| && a[..k] == b[..k] && (k == |a| || k == |b| || a[k] != b[k])
  }

  lemma {:induction false} LessIff(a: string, b: string, k: nat)
    requires DifferAt(a, b, k)
    ensures Less(a, b) <==> k < |b| && (k == |a| || a[k] < b[k])
  {
    if k > 0 {
      assert a[..k][0] == b[..k][0];
      assert a[1..][..k - 1] == a[..k][1..] && b[1..][..k - 1] == b[..k][1..];
      LessIff(a[1..], b[1..], k - 1);
    }
  }

  lemma {:induction false} LessIsAsymmetric(a: string, b: string)
    ensures !(Less(a, b) && Less(b, a))
  {
    if a != "" && b != "" { LessIsAsymmetric(a[1..], b[1..]); }
  }

  lemma {:induction false} LessIsTotal(a: string, b: string)
    ensures a == b || Less(a, b) || Less(b, a)
  {
    if a != "" && b != "" && a[0] == b[0] {
      LessIsTotal(a[1..], b[1..]);
      if a[1..] == b[1..] {
        assert a == [a[0]] + a[1..] && b == [b[0]] + b[1..];
      }
    }
  }

  lemma {:induction false} LessIsTransitive(a: string, b: string, c: string)
    requires Less(a, b) && Less(b, c)
    ensures Less(a, c)
  {
    if a != "" && a[0] == b[0] == c[0] { LessIsTransitive(a[1..], b[1..], c[1..]); }
  }

  // ---------------------------------------------------------------- sorting and slicing

  ghost predicate Ordered(s: seq<string>) {
    forall i, j | 0 <= i < j < |s| :: !Less(s[j], s[i])
  }

  function Insert(id: string, s: seq<string>): (r: seq<string>)
    ensures multiset(r) == multiset(s) + multiset{id}
  {
    if s == [] || !Less(s[0], id) then [id] + s
    else
      assert s == [s[0]] + s[1..];
      [s[0]] + Insert(id, s[1..])
  }

  /** `sorted(s)`. */
  function Sorted(s: seq<string>): (r: seq<string>)
    ensures multiset(r) == multiset(s)
  {
    if s == [] then []
    else
      assert s == [s[0]] + s[1..];
      Insert(s[0], Sorted(s[1..]))
  }

  lemma {:induction false} InsertKeepsOrder(id: string, s: seq<string>)
    requires Ordered(s)
    ensures Ordered(Insert(id, s))
  {
    var r := Insert(id, s);
    if s == [] {
    } else if !Less(s[0], id) {
      forall j | 0 <= j < |s|
        ensures !Less(s[j], id)
      {
        if Less(s[j], id) {
          LessIsTotal(s[0], id);
          if Less(id, s[0]) { LessIsTransitive(s[j], id, s[0]); }
        }
      }
    } else {
      InsertKeepsOrder(id, s[1..]);
      forall j | 1 <= j < |r|
        ensures !Less(r[j], s[0])
      {
        assert r[j] in multiset(r[1..]);
        assert r[1..] == Insert(id, s[1..]);
        if r[j] == id {
          LessIsAsymmetric(id, s[0]);
        } else {
          assert r[j] in s[1..];
        }
      }
    }
  }

  lemma {:induction false} SortedIsOrdered(s: seq<string>)
    ensures Ordered(Sorted(s))
  {
    if s != [] {
      SortedIsOrdered(s[1..]);
      InsertKeepsOrder(s[0], Sorted(s[1..]));
    }
  }

  /** Python's `s[start:end]` for a non-negative start; a negative end counts from the back. */
  function PySlice(s: seq<string>, start: nat, end: int): seq<string> {
    var stop := if end < 0 then |s| + end else if end > |s| then |s| else end;
    if start < stop then s[start..stop] else []
  }

  // ---------------------------------------------------------------- the filter

  function Filter(s: seq<string>, keep: string -> bool): (r: seq<string>)
    ensures forall id :: id in r <==> id in s && keep(id)
  {
    if s == [] then []
    else
      var last := |s| - 1;
      Filter(s[..last], keep) + (if keep(s[last]) then [s[last]] else [])
  }

  lemma {:induction false} FilterPicks(s: seq<string>, keep: string -> bool)
    ensures PicksOut(s, Filter(s, keep), keep)
  {
    if s != [] {
      var last := |s| - 1;
      FilterPicks(s[..last], keep);
      PicksOutSnoc(s[..last], Filter(s[..last], keep), keep, s[last]);
      assert s == s[..last] + [s[last]];
    }
  }

  function Low(start: Option<int>): nat {
    if start.Some? && start.value > 0 then start.value else 0
  }

  function High(end: Option<int>, n: nat): int {
    if end.Some? && end.value < n then end.value else n
  }

  function Chosen(ids: seq<string>, start: Option<int>, end: Option<int>): seq<string> {
    var tenants := Sorted(Filter(ids, IsTenant));
    PySlice(tenants, Low(start), High(end, |tenants|))
  }

  method FilterTenantsByRange(ids: seq<string>, start: Option<int>, end: Option<int>) returns (r: seq<string>)
    ensures start.None? && end.None? ==> r == ids
    ensures start.Some? || end.Some? ==> r == Filter(ids, id => id in Chosen(ids, start, end) || !IsTenant(id))
  {
    if start.None? && end.None? { return ids; }
    var tenants, others := SeparateTenants(ids);
    var inOrder := Sorted(tenants);
    var chosen := PySlice(inOrder, Low(start), High(end, |inOrder|));
    assert chosen == Chosen(ids, start, end);
    r := KeepListed(ids, chosen, others, id => id in Chosen(ids, start, end) || !IsTenant(id));
  }

  method SeparateTenants(ids: seq<string>) returns (tenants: seq<string>, others: seq<string>)
    ensures tenants == Filter(ids, IsTenant)
    ensures forall id :: id in others <==> id in ids && !IsTenant(id)
  {
    tenants, others := [], [];
    for k := 0 to |ids|
      invariant tenants == Filter(ids[..k], IsTenant)
      invariant forall id :: id in others <==> id in ids[..k] && !IsTenant(id)
    {
      assert ids[..k + 1][..k] == ids[..k];
      if IsTenant(ids[k]) { tenants := tenants + [ids[k]]; } else { others := others + [ids[k]]; }
    }
    assert ids[..|ids|] == ids;
  }

  /** The ids that stand in one of the two lists, in their original order. */
  method KeepListed(ids: seq<string>, chosen: seq<string>, others: seq<string>, ghost keep: string -> bool)
    returns (r: seq<string>)
    requires forall id | id in ids :: keep(id) <==> id in chosen || id in others
    ensures r == Filter(ids, keep)
  {
    r := [];
    for k := 0 to |ids|
      invariant r == Filter(ids[..k], keep)
    {
      assert ids[..k + 1][..k] == ids[..k];
      if ids[k] in chosen || ids[k] in others { r := r + [ids[k]]; }
    }
    assert ids[..|ids|] == ids;
  }

  // ---------------------------------------------------------------- what it means

  /** How many of these ids come before `id` alphabetically. */
  function Position(tenants: seq<string>, id: string): nat {
    |set other | other in tenants && Less(other, id)|
  }

  function Rank(ids: seq<string>, id: string): nat {
    Position(Filter(ids, IsTenant), id)
  }

  lemma {:induction false} DistinctCardinality(s: seq<string>)
    requires Distinct(s)
    ensures |set id | id in s| == |s|
  {
    if s != [] {
      var last := |s| - 1;
      DistinctCardinality(s[..last]);
      assert (set id | id in s) == (set id | id in s[..last]) + {s[last]};
    }
  }

  lemma {:induction false} DistinctMultiset(s: seq<string>)
    requires Distinct(s)
    ensures forall id :: multiset(s)[id] <= 1
  {
    if s != [] {
      var last := |s| - 1;
      DistinctMultiset(s[..last]);
      assert s == s[..last] + [s[last]];
    }
  }

  lemma {:induction false} MultisetDistinct(s: seq<string>)
    requires forall id :: multiset(s)[id] <= 1
    ensures Distinct(s)
  {
    forall i, j | 0 <= i < j < |s|
      ensures s[i] != s[j]
    {
      assert s == s[..j] + [s[j]] + s[j + 1..];
      assert s[i] == s[..j][i];
      assert multiset(s)[s[j]] == multiset(s[..j])[s[j]] + 1 + multiset(s[j + 1..])[s[j]];
    }
  }

  lemma {:induction false} FilterDistinct(s: seq<string>, keep: string -> bool)
    requires Distinct(s)
    ensures Distinct(Filter(s, keep))
  {
    if s != [] {
      var last := |s| - 1;
      FilterDistinct(s[..last], keep);
      assert s[last] !in s[..last];
    }
  }

  lemma {:induction false} SortedMembers(s: seq<string>, id: string)
    ensures id in Sorted(s) <==> id in s
    ensures |Sorted(s)| == |s|
  {
    assert id in Sorted(s) <==> id in multiset(Sorted(s));
    assert id in s <==> id in multiset(s);
    assert |Sorted(s)| == |multiset(Sorted(s))| == |multiset(s)| == |s|;
  }

  lemma {:induction false} SortedIsStrict(s: seq<string>, i: nat, j: nat)
    requires Distinct(s) && i < |Sorted(s)| && j < |Sorted(s)|
    ensures Less(Sorted(s)[i], Sorted(s)[j]) <==> i < j
  {
    var r := Sorted(s);
    SortedIsOrdered(s);
    DistinctMultiset(s);
    MultisetDistinct(r);
    LessIsAsymmetric(r[i], r[j]);
    LessIsTotal(r[i], r[j]);
  }

  /** In a strictly increasing listing of the same ids, each stands at its position. */
  lemma {:induction false} StrictPosition(tenants: seq<string>, s: seq<string>, i: nat)
    requires i < |s|
    requires forall id :: id in s <==> id in tenants
    requires forall j, k | 0 <= j < |s| && 0 <= k < |s| :: Less(s[j], s[k]) <==> j < k
    ensures Position(tenants, s[i]) == i
  {
    forall id
      ensures id in tenants && Less(id, s[i]) <==> id in s[..i]
    {
      if id in tenants && Less(id, s[i]) {
        var j :| 0 <= j < |s| && s[j] == id;
        assert s[..i][j] == id;
      }
    }
    assert (set other | other in tenants && Less(other, s[i])) == (set id | id in s[..i]);
    DistinctCardinality(s[..i]);
  }

  lemma {:induction false} SortedAtPosition(tenants: seq<string>, i: nat)
    requires Distinct(tenants) && i < |Sorted(tenants)|
    ensures Position(tenants, Sorted(tenants)[i]) == i
  {
    var s := Sorted(tenants);
    forall j, k | 0 <= j < |s| && 0 <= k < |s|
      ensures Less(s[j], s[k]) <==> j < k
    {
      SortedIsStrict(tenants, j, k);
    }
    forall id
      ensures id in s <==> id in tenants
    {
      SortedMembers(tenants, id);
    }
    StrictPosition(tenants, s, i);
  }

  /** Where the slice ends once a negative bound has wrapped. */
  function Stop(ids: seq<string>, end: Option<int>): int {
    var n := |Filter(ids, IsTenant)|;
    var high := High(end, n);
    if high < 0 then n + high else high
  }

  /** A slice of the sorted list holds exactly the ids whose position is in its bounds. */
  lemma {:induction false} SliceByPosition(tenants: seq<string>, low: nat, stop: int, id: string)
    requires Distinct(tenants) && id in tenants && stop <= |tenants|
    ensures (low < stop && |Sorted(tenants)| >= stop && id in Sorted(tenants)[low..stop])
            <==> low <= Position(tenants, id) < stop
    ensures Position(tenants, id) < |tenants|
  {
    var s := Sorted(tenants);
    SortedMembers(tenants, id);
    var i :| 0 <= i < |s| && s[i] == id;
    SortedAtPosition(tenants, i);
    forall j | 0 <= j < |s| && s[j] == id ensures j == i {
      SortedAtPosition(tenants, j);
    }
    if low < stop {
      InSlice(s, low, stop, i);
    }
  }

  lemma {:induction false} InSlice(s: seq<string>, low: nat, stop: nat, i: nat)
    requires low <= stop <= |s| && i < |s| && forall j | 0 <= j < |s| && s[j] == s[i] :: j == i
    ensures s[i] in s[low..stop] <==> low <= i < stop
  {
    if low <= i < stop {
      assert s[low..stop][i - low] == s[i];
    }
    if s[i] in s[low..stop] {
      var k :| 0 <= k < stop - low && s[low..stop][k] == s[i];
      assert s[low + k] == s[i];
    }
  }

  /** A tenant is taken exactly when its rank lies in the half-open range, counted from zero. */
  lemma {:induction false} ChosenByRank(ids: seq<string>, start: Option<int>, end: Option<int>, id: string)
    requires Distinct(ids) && id in ids && IsTenant(id)
    ensures id in Chosen(ids, start, end) <==> Low(start) <= Rank(ids, id) < Stop(ids, end)
  {
    var tenants := Filter(ids, IsTenant);
    FilterDistinct(ids, IsTenant);
    SortedMembers(tenants, id);
    SliceByPosition(tenants, Low(start), Stop(ids, end), id);
  }

  /** Ranks are the positions 0, 1, 2, ...: no two tenants share one. */
  lemma {:induction false} RankIsAPosition(ids: seq<string>, id: string, other: string)
    requires Distinct(ids) && id in ids && other in ids && IsTenant(id) && IsTenant(other)
    ensures Rank(ids, id) < |Filter(ids, IsTenant)|
    ensures Rank(ids, id) == Rank(ids, other) ==> id == other
  {
    var tenants := Filter(ids, IsTenant);
    FilterDistinct(ids, IsTenant);
    SortedMembers(tenants, id);
    SortedMembers(tenants, other);
    var i :| 0 <= i < |Sorted(tenants)| && Sorted(tenants)[i] == id;
    var j :| 0 <= j < |Sorted(tenants)| && Sorted(tenants)[j] == other;
    SortedAtPosition(tenants, i);
    SortedAtPosition(tenants, j);
  }

  ghost function Taken(ids: seq<string>, start: int, end: int): seq<string> {
    Filter(ids, id => id in Chosen(ids, Some(start), Some(end)) || !IsTenant(id))
  }

  /**
   Workers given the ranges (a, b) and (b, c) share out the tenants a worker given (a, c) would
   take: each of those tenants goes to exactly one of the two, and other schemas go to both.
   */
  lemma {:induction false} AdjacentRangesPartition(ids: seq<string>, a: nat, b: nat, c: nat, id: string)
    requires Distinct(ids) && a <= b <= c
    ensures IsTenant(id) ==> (id in Taken(ids, a, c) <==> id in Taken(ids, a, b) || id in Taken(ids, b, c))
    ensures IsTenant(id) ==> !(id in Taken(ids, a, b) && id in Taken(ids, b, c))
    ensures !IsTenant(id) ==> (id in ids <==> id in Taken(ids, a, b)) && (id in ids <==> id in Taken(ids, b, c))
  {
    if IsTenant(id) && id in ids {
      ChosenByRank(ids, Some(a), Some(b), id);
      ChosenByRank(ids, Some(b), Some(c), id);
      ChosenByRank(ids, Some(a), Some(c), id);
      RankIsAPosition(ids, id, id);
    }
  }

  /** The result keeps the order of the input: it is the input with some positions left out. */
  lemma {:induction false} FilterIsSubsequence(s: seq<string>, keep: string -> bool) returns (at: seq<nat>)
    ensures |at| == |Filter(s, keep)|
    ensures forall i | 0 <= i < |at| :: at[i] < |s| && Filter(s, keep)[i] == s[at[i]]
    ensures forall i, j | 0 <= i < j < |at| :: at[i] < at[j]
  {
    if s == [] {
      at := [];
    } else {
      var last := |s| - 1;
      at := FilterIsSubsequence(s[..last], keep);
      if keep(s[last]) { at := at + [last]; }
    }
  }

  /** The documented reading: tenants counted from one, both bounds included. */
  predicate Documented(ids: seq<string>, start: Option<int>, end: Option<int>, id: string) {
    && (start.Some? ==> start.value <= Rank(ids, id) + 1)
    && (end.Some? ==> Rank(ids, id) + 1 <= end.value)
  }

  /** The start bound names an existing tenant that is not past the end bound. */
  predicate StartsInside(n: nat, start: Option<int>, end: Option<int>) {
    start.Some? && 1 <= start.value <= n && (end.Some? ==> start.value <= end.value)
  }

  lemma {:induction false} RankIsTaken(ids: seq<string>, k: nat) returns (id: string)
    requires Distinct(ids) && k < |Filter(ids, IsTenant)|
    ensures id in ids && IsTenant(id) && Rank(ids, id) == k
  {
    var tenants := Filter(ids, IsTenant);
    FilterDistinct(ids, IsTenant);
    SortedMembers(tenants, "");
    id := Sorted(tenants)[k];
    SortedMembers(tenants, id);
    SortedAtPosition(tenants, k);
  }

  /**
   The code takes ranks from zero and leaves out the end. It agrees with the documented reading exactly
   when the start bound names no existing tenant, so that its being skipped is not noticed, or, with a
   negative end, which counts from the back, when nothing is left to take.
   */
  lemma {:induction false} RangeIsZeroBased(ids: seq<string>, start: Option<int>, end: Option<int>)
    requires Distinct(ids)
    ensures var n := |Filter(ids, IsTenant)|;
            (forall id | id in ids && IsTenant(id) :: id in Chosen(ids, start, end) <==>
              Documented(ids, start, end, id)) <==>
            if end.Some? && end.value < 0 then n + end.value <= Low(start) else !StartsInside(n, start, end)
  {
    var n := |Filter(ids, IsTenant)|;
    forall id | id in ids && IsTenant(id)
      ensures id in Chosen(ids, start, end) <==> Low(start) <= Rank(ids, id) < Stop(ids, end)
      ensures Rank(ids, id) < n
    {
      ChosenByRank(ids, start, end, id);
      RankIsAPosition(ids, id, id);
    }
    if end.Some? && end.value < 0 {
      if Low(start) < n + end.value { var id := RankIsTaken(ids, Low(start)); }
    } else if StartsInside(n, start, end) {
      var id := RankIsTaken(ids, start.value - 1);
    }
  }

  /** With two tenants and the bounds 1 and 2, which are documented to take both, the first is left out. */
  lemma {:induction false} FirstTenantIsSkipped(first: string, second: string)
    requires IsTenant(first) && IsTenant(second) && Less(first, second)
    ensures first !in Taken([first, second], 1, 2) && second in Taken([first, second], 1, 2)
  {
    var ids := [first, second];
    FilterPair(first, second, IsTenant);
    PairPositions(first, second);
    assert Filter(ids, IsTenant) == ids;
    ChosenByRank(ids, Some(1), Some(2), first);
    ChosenByRank(ids, Some(1), Some(2), second);
  }

  lemma {:induction false} PairPositions(first: string, second: string)
    requires Less(first, second)
    ensures Distinct([first, second])
    ensures Position([first, second], first) == 0 && Position([first, second], second) == 1
  {
    LessIsAsymmetric(first, second);
    LessIsAsymmetric(first, first);
    LessIsAsymmetric(second, second);
    assert (set other | other in [first, second] && Less(other, first)) == {};
    assert (set other | other in [first, second] && Less(other, second)) == {first};
  }

  lemma {:induction false} FilterPair(first: string, second: string, keep: string -> bool)
    ensures Filter([first, second], keep)
                == (if keep(first) then [first] else []) + (if keep(second) then [second] else [])
  {
    assert [first, second][..1] == [first] && [first][..0] == [];
    assert Filter([first], keep) == if keep(first) then [first] else [];
  }
}
