/**
 What AnswerFile asks of printing and parsing a record can be had: a printer and a parser that meet it.
 */
module PrintedRecords {
  import opened AnswerFile
  import opened Outcomes
  import opened QuestionTasks
  import opened Text

  function Unary(n: nat): string { if n == 0 then "b" else "a" + Unary(n - 1) }

  function Encoded(s: string): string { if s == "" then "" else Unary(s[0] as int) + Encoded(s[1..]) }

  /** A miniature of JSON: braces around two fields, the characters of the fields written in unary. */
  function Printed(r: Record): string { "{" + Encoded(r.questionId) + "," + Encoded(r.text) + "}" }

  ghost function ParsedBack(s: string): Parsed {
    if r: Record :| Printed(r) == s then Object(Some(r.questionId)) else Malformed
  }

  predicate Letters(s: string) { forall i | 0 <= i < |s| :: s[i] == 'a' || s[i] == 'b' }

  lemma {:induction false} UnaryIsLetters(n: nat)
    ensures Letters(Unary(n)) && Unary(n) != ""
  {
    if n > 0 {
      UnaryIsLetters(n - 1);
    }
  }

  lemma {:induction false} EncodedIsLetters(s: string)
    ensures Letters(Encoded(s))
  {
    if s != "" {
      UnaryIsLetters(s[0] as int);
      EncodedIsLetters(s[1..]);
    }
  }

  lemma {:induction false} UnaryDecodes(m: nat, n: nat, x: string, y: string)
    requires Unary(m) + x == Unary(n) + y
    ensures m == n && x == y
  {
    assert (Unary(m) + x)[0] == Unary(m)[0] && (Unary(n) + y)[0] == Unary(n)[0];
    if m > 0 && n > 0 {
      assert (Unary(m) + x)[1..] == Unary(m - 1) + x && (Unary(n) + y)[1..] == Unary(n - 1) + y;
      UnaryDecodes(m - 1, n - 1, x, y);
    } else {
      assert (Unary(m) + x)[1..] == x && (Unary(n) + y)[1..] == y;
    }
  }

  lemma {:induction false} EncodedStarts(p: string, x: string)
    ensures (Encoded(p) + "," + x)[0] == ',' <==> p == ""
    ensures p != "" ==> Encoded(p) + "," + x == Unary(p[0] as int) + (Encoded(p[1..]) + "," + x)
  {
    if p != "" { UnaryIsLetters(p[0] as int); }
  }

  lemma {:induction false} EncodedDecodes(p: string, q: string, x: string, y: string)
    requires Encoded(p) + "," + x == Encoded(q) + "," + y
    ensures p == q
  {
    EncodedStarts(p, x);
    EncodedStarts(q, y);
    if p != "" {
      UnaryDecodes(p[0] as int, q[0] as int, Encoded(p[1..]) + "," + x, Encoded(q[1..]) + "," + y);
      EncodedDecodes(p[1..], q[1..], x, y);
      assert p == [p[0]] + p[1..] && q == [q[0]] + q[1..];
    }
  }

  lemma {:induction false} AfterBrace(r: Record)
    ensures Printed(r)[1..] == Encoded(r.questionId) + "," + (Encoded(r.text) + "}")
  {
  }

  lemma {:induction false} PrintedId(r: Record, t: Record)
    requires Printed(r) == Printed(t)
    ensures r.questionId == t.questionId
  {
    AfterBrace(r);
    AfterBrace(t);
    EncodedDecodes(r.questionId, t.questionId, Encoded(r.text) + "}", Encoded(t.text) + "}");
  }

  /** Braces only at the two ends, no white space and no control character. */
  ghost predicate Braced(s: string) {
    && |s| >= 2
    && (forall i | 0 <= i < |s| ::
        (s[i] == '{' <==> i == 0) && (s[i] == '}' <==> i == |s| - 1) && !IsSpace(s[i]) && s[i] != NOT_UTF8)
  }

  lemma {:induction false} PrintedIsBraced(r: Record)
    ensures Braced(Printed(r))
  {
    EncodedIsLetters(r.questionId);
    EncodedIsLetters(r.text);
    var q, t := Encoded(r.questionId), Encoded(r.text);
    forall i | 0 <= i < |Printed(r)|
      ensures var c := Printed(r)[i];
              (c == '{' <==> i == 0) && (c == '}' <==> i == |Printed(r)| - 1) && !IsSpace(c) && c != NOT_UTF8
    {
      if 0 < i <= |q| {
        assert Printed(r)[i] == q[i - 1];
      } else if |q| + 2 <= i < |Printed(r)| - 1 {
        assert Printed(r)[i] == t[i - |q| - 2];
      }
    }
  }

  lemma {:induction false} LineHasNoSpace(ps: seq<Piece>)
    requires ValidPieces(Printed, ps)
    ensures forall i | 0 <= i < |LineText(Printed, ps)| :: !IsSpace(LineText(Printed, ps)[i])
  {
    if ps != [] {
      var before, last := LineText(Printed, ps[..|ps| - 1]), ps[|ps| - 1];
      LineHasNoSpace(ps[..|ps| - 1]);
      PrintedIsBraced(last.record);
      assert last in ps;
      var piece := PieceText(Printed, last);
      assert forall i | 0 <= i < last.cut :: piece[i] == Printed(last.record)[i];
      assert forall i | 0 <= i < |piece| :: !IsSpace(piece[i]);
      assert LineText(Printed, ps) == before + piece;
    }
  }

  lemma {:induction false} TornIsNotBraced(s: string, cut: nat)
    requires Braced(s) && 0 < cut < |s|
    ensures !Braced(s[..cut])
  {
    assert s[..cut][cut - 1] == s[cut - 1] != '}';
  }

  lemma {:induction false} JoinedIsNotBraced(before: string, piece: string)
    requires before != "" && piece != "" && piece[0] == '{'
    ensures !Braced(before + piece)
  {
    assert (before + piece)[|before|] == '{';
  }

  lemma {:induction false} DamagedIsNotPrinted(ps: seq<Piece>, r: Record)
    requires ValidPieces(Printed, ps) && Damaged(Printed, ps) && !Undecodable(ps)
    ensures LineText(Printed, ps) != Printed(r)
  {
    var n := |ps| - 1;
    var last := ps[n];
    var before := LineText(Printed, ps[..n]);
    assert last in ps;
    PrintedIsBraced(r);
    PrintedIsBraced(last.record);
    LineTextEmpty(Printed, ps[..n]);
    if n == 0 {
      assert !last.half;
      TornIsNotBraced(Printed(last.record), last.cut);
      assert PieceText(Printed, last) == Printed(last.record)[..last.cut];
      assert before + PieceText(Printed, last) == PieceText(Printed, last);
    } else {
      JoinedIsNotBraced(before, PieceText(Printed, last));
    }
  }

  /** The assumption is consistent: some printer and parser meet it. */
  lemma {:induction false} JsonLikeIsPossible()
    ensures exists render: Printer, parse: Parser :: JsonLike(render, parse)
  {
    var parse: Parser := s => ParsedBack(s);
    forall r: Record ensures Printed(r) != "" && Trimmed(Printed(r)) && '\n' !in Printed(r) && NOT_UTF8 !in Printed(r) {
      PrintedIsBraced(r);
    }
    forall r: Record ensures parse(Printed(r)) == Object(Some(r.questionId)) {
      forall t: Record | Printed(t) == Printed(r) ensures t.questionId == r.questionId {
        PrintedId(t, r);
      }
    }
    forall ps: seq<Piece> | ValidPieces(Printed, ps) && Damaged(Printed, ps) && !Undecodable(ps)
      ensures parse(Strip(LineText(Printed, ps))) == Malformed
    {
      LineHasNoSpace(ps);
      forall r: Record ensures LineText(Printed, ps) != Printed(r) {
        DamagedIsNotPrinted(ps, r);
      }
    }
    assert JsonLike(Printed, parse);
  }
}
