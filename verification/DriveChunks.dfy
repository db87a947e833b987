/** Whether the keys of chunk rows, made of document id and chunk number, keep in step with a rename. */
module DriveChunks {
  import opened DriveIds
  import opened Outcomes
  import opened SqlText
  import opened Text

  /** The key of chunk `n` of a document. */
  function ChunkKey(id: string, n: nat): string { id + Separated(n) }

  function Separated(n: nat): string { "__" + Decimal(n) }

  ghost predicate Occurs(part: string, text: string) { exists i: nat :: OccursAt(part, text, i) }

  lemma {:induction false} OccursTail(part: string, text: string)
    requires text != "" && !(part <= text)
    ensures Occurs(part, text) <==> Occurs(part, text[1..])
  {
    if i: nat :| OccursAt(part, text, i) {
      assert i > 0;
      assert text[1..][i - 1..i - 1 + |part|] == text[i..i + |part|];
      assert OccursAt(part, text[1..], i - 1);
    }
    if i: nat :| OccursAt(part, text[1..], i) {
      assert text[1..][i..i + |part|] == text[i + 1..i + 1 + |part|];
      assert OccursAt(part, text, i + 1);
    }
  }

  lemma {:induction false} ReplaceLength(s: string, from: string, to: string)
    ensures |to| >= |from| ==> |Replace(s, from, to)| >= |s|
    ensures |to| <= |from| ==> |Replace(s, from, to)| <= |s|
    decreases |s|
  {
    if from == "" || s == "" {
    } else if from <= s {
      ReplaceLength(s[|from|..], from, to);
    } else {
      ReplaceLength(s[1..], from, to);
    }
  }

  /** Replacing by something else changes a text exactly when there is something to replace. */
  lemma {:induction false} ReplaceIff(s: string, from: string, to: string)
    requires from != "" && from != to
    ensures Replace(s, from, to) == s <==> !Occurs(from, s)
    decreases |s|
  {
    if s == "" {
      assert forall i: nat :: !OccursAt(from, s, i);
    } else if from <= s {
      assert OccursAt(from, s, 0);
      ReplaceLength(s[|from|..], from, to);
      var after := Replace(s, from, to);
      assert after[..|to|] == to;
      assert |after| == |s| ==> |to| == |from|;
      assert s[..|from|] == from;
    } else {
      ReplaceIff(s[1..], from, to);
      OccursTail(from, s);
      assert s == [s[0]] + s[1..];
    }
  }

  /** The id does not occur in the number part of its own key, and the pattern takes that key. */
  ghost predicate OwnKeyFollows(id: string, n: nat) {
    id != "" && Like(ChunkKey(id, n), ChunkPattern(id)) && !Occurs(id, Separated(n))
  }

  /** The pattern leaves the key alone, or finds nothing in it to replace. */
  ghost predicate StrangersKeyStays(id: string, key: string) {
    id == "" || !Like(key, ChunkPattern(id)) || !Occurs(id, key)
  }

  /**
   Exactly when a rename leaves a chunk row whose key was in step with its document in step: the rewritten
   key of the renamed document has its new id in front and nothing else changed, and the key of any other
   document is not rewritten.
   */
  lemma {:induction false} RenameKeepsStepIff(db: Db, from: string, to: string, i: nat, d: string, n: nat)
    requires Complete(db) && from != to && i in db.rows[ChunkStats]
    requires db.rows[ChunkStats][i].doc == Some(d) && db.rows[ChunkStats][i].key == ChunkKey(d, n)
    ensures i in Renamed(db, from, to).rows[ChunkStats]
    ensures var after := Renamed(db, from, to).rows[ChunkStats][i];
            after.doc.Some? && (after.key == ChunkKey(after.doc.value, n) <==>
              if d == from then OwnKeyFollows(from, n) else StrangersKeyStays(from, ChunkKey(d, n)))
  {
    RenameConservesRows(db, from, to, ChunkStats, i);
    if from != "" {
      if d == from {
        ReplaceFront(from, Separated(n), to);
        ReplaceIff(Separated(n), from, to);
        SamePrefix(to, Replace(Separated(n), from, to), Separated(n));
        KeysDiffer(from, to, n);
      } else {
        ReplaceIff(ChunkKey(d, n), from, to);
      }
    } else {
      KeysDiffer(from, to, n);
    }
  }

  lemma {:induction false} SamePrefix(front: string, a: string, b: string)
    ensures front + a == front + b <==> a == b
  {
    assert (front + a)[|front|..] == a && (front + b)[|front|..] == b;
  }

  lemma {:induction false} KeysDiffer(a: string, b: string, n: nat)
    requires a != b
    ensures ChunkKey(a, n) != ChunkKey(b, n)
  {
    assert ChunkKey(a, n)[..|a|] == a;
    assert |a| == |b| ==> ChunkKey(b, n)[..|a|] == b;
  }

  lemma {:induction false} DecimalDigits(n: nat)
    ensures forall c | c in Decimal(n) :: '0' <= c <= '9'
  {
    if n >= 10 { DecimalDigits(n / 10); }
  }

  /** Ids with a letter or a slash, such as urls, and without backslash: their own keys always follow. */
  lemma {:induction false} UrlKeysFollow(id: string, n: nat, c: char)
    requires '\\' !in id && c in id && c != '_' && !('0' <= c <= '9')
    ensures OwnKeyFollows(id, n)
  {
    var key := ChunkKey(id, n);
    LikeItself(id);
    assert key[..|id|] == id;
    assert TakesAt(id, key, |id|);
    ChunkPatternTakes(key, id);
    SeparatedLacks(n, c);
    OccursBrings(id, Separated(n), c);
  }

  lemma {:induction false} SeparatedLacks(n: nat, c: char)
    requires c != '_' && !('0' <= c <= '9')
    ensures c !in Separated(n)
  {
    DecimalDigits(n);
  }

  lemma {:induction false} OccursBrings(part: string, text: string, c: char)
    requires c in part
    ensures Occurs(part, text) ==> c in text
  {
    if i: nat :| OccursAt(part, text, i) {
      var j :| 0 <= j < |part| && part[j] == c;
      assert text[i..i + |part|][j] == c;
    }
  }

  /** The keys of a document whose id extends the renamed one are rewritten though the document is not renamed. */
  lemma {:induction false} ExtensionsGetWrongKeys(id: string, suffix: string, n: nat)
    requires '\\' !in id && id != ""
    ensures !StrangersKeyStays(id, ChunkKey(id + suffix, n))
  {
    var key := ChunkKey(id + suffix, n);
    LikeItself(id);
    assert key[..|id|] == id && OccursAt(id, key, 0);
    assert TakesAt(id, key, |id|);
    ChunkPatternTakes(key, id);
  }
}
