/**
 The load-test chat user (loadtest/onyx_client/chat_user.py): the session it keeps between turns,
 one turn, and what holds over any run of turns against any server.
 */
module ChatUser {
  import opened Counting
  import opened Outcomes
  import opened StreamParser

  /** Fixed settings of a user; no messages would be a division by zero in the source. */
  datatype Config = Config(maxSessionTurns: int, disconnectAfter: Option<Milestone>, messages: seq<string>)

  predicate Usable(c: Config) { c.messages != [] }

  /** What asking for a new session comes to. */
  datatype Creation = Created(id: string) | Refused | CreateRaised

  /** What sending the message comes to: an error status, or lines and possibly an exception after them. */
  datatype Response = HttpError | Stream(lines: seq<Line>, breaks: bool)

  datatype World = World(creation: Creation, response: Response)

  datatype Payload = Payload(message: string, session: Option<string>, parent: Option<int>)

  datatype Fire = Hit(milestone: Milestone) | TotalTurn(ok: bool) | Disconnected

  datatype End = HttpFailed | Raised | Dropped | ReadToEnd(ok: bool)

  /**
   What a turn did. `serial` numbers the sessions in the order they were opened, whether by a
   create request or by the message itself.
   */
  datatype Turn = Skipped | Sent(serial: nat, payload: Payload, reserved: Option<int>, fired: seq<Fire>, outcome: End)

  /** The fields of the user that outlive a turn, and how many sessions were opened so far. */
  datatype User = User(session: Option<string>, parent: Option<int>, sessionTurn: nat, turnIndex: nat, serials: nat)

  const FRESH_USER := User(None, None, 0, 0, 0)

  // ---------------------------------------------------------------- reading a stream

  datatype Reading = Reading(summary: Summary, fired: seq<Milestone>, disconnected: bool, raised: bool)

  /** The milestones fired for one line: up to the disconnect target when it is among them. */
  function FiredOf(hit: seq<Milestone>, target: Option<Milestone>): (r: seq<Milestone>)
    ensures r <= hit
    ensures target.Some? && target.value in hit ==> r != [] && r[|r| - 1] == target.value
    ensures target.None? || target.value !in hit ==> r == hit
  {
    if hit == [] then []
    else if target == Some(hit[0]) then [hit[0]]
    else [hit[0]] + FiredOf(hit[1..], target)
  }

  predicate Reaches(hit: seq<Milestone>, target: Option<Milestone>) { target.Some? && target.value in hit }

  /** Reading on from a summary until the lines end, a milestone disconnects, or a line raises. */
  function Read(s: Summary, lines: seq<Line>, target: Option<Milestone>): Reading
    decreases |lines|, 0
  {
    if lines == [] then Reading(s, [], false, false) else ReadAfter(FedLine(s, lines[0]), lines[1..], target)
  }

  /** Reading on once a line was fed. */
  function ReadAfter(f: Fed, rest: seq<Line>, target: Option<Milestone>): Reading
    decreases |rest|, 1
  {
    if f.raised then Reading(f.summary, [], false, true)
    else
      var fired := FiredOf(f.hit, target);
      if Reaches(f.hit, target) then Reading(f.summary, fired, true, false)
      else
        var later := Read(f.summary, rest, target);
        later.(fired := fired + later.fired)
  }

  // ---------------------------------------------------------------- one turn

  /** The payload of `_next_payload` and the state it leaves; None when there is nothing to send. */
  function NextPayload(c: Config, u: User, message: string, creation: Creation): (Option<Payload>, User) {
    if c.maxSessionTurns > 1 then
      if u.session.None? || u.sessionTurn >= c.maxSessionTurns then
        match creation
        case CreateRaised => (None, u)
        case Refused => (None, u.(session := None, parent := None, sessionTurn := 0))
        case Created(id) =>
          if id == "" then (None, u.(session := None, parent := None, sessionTurn := 0))
          else
            (Some(Payload(message, Some(id), None)),
             u.(session := Some(id), parent := None, sessionTurn := 0, serials := u.serials + 1))
      else (Some(Payload(message, u.session, u.parent)), u)
    else (Some(Payload(message, None, None)), u.(serials := u.serials + 1))
  }

  function Milestones(fired: seq<Milestone>): (r: seq<Fire>)
    ensures |r| == |fired| && forall i | 0 <= i < |r| :: r[i] == Hit(fired[i])
  {
    if fired == [] then [] else Milestones(fired[..|fired| - 1]) + [Hit(fired[|fired| - 1])]
  }

  /** Sending the payload and reading the reply. */
  function Exchanged(c: Config, u: User, p: Payload, response: Response): (User, Turn) {
    match response
    case HttpError =>
      (u.(session := None), Sent(u.serials, p, None, [TotalTurn(false)], HttpFailed))
    case Stream(lines, breaks) =>
      var r := Read(BLANK_SUMMARY, lines, c.disconnectAfter);
      var fired := Milestones(r.fired);
      if r.raised || (breaks && !r.disconnected) then
        (u.(session := None), Sent(u.serials, p, r.summary.reserved, fired + [TotalTurn(false)], Raised))
      else if r.disconnected then
        (u.(session := None), Sent(u.serials, p, r.summary.reserved, fired + [Disconnected], Dropped))
      else
        var ok := CompletedOk(r.summary);
        var kept := if c.maxSessionTurns > 1 then
                      u.(sessionTurn := u.sessionTurn + 1,
                         parent := if r.summary.reserved.Some? then r.summary.reserved else u.parent)
                    else u;
        (kept, Sent(u.serials, p, r.summary.reserved, fired + [TotalTurn(ok)], ReadToEnd(ok)))
  }

  /** `chat_turn`. */
  function Turned(c: Config, u: User, w: World): (User, Turn)
    requires Usable(c)
  {
    var message := c.messages[u.turnIndex % |c.messages|];
    var next := NextPayload(c, u.(turnIndex := u.turnIndex + 1), message, w.creation);
    if next.0.None? then (next.1, Skipped) else Exchanged(c, next.1, next.0.value, w.response)
  }

  // ---------------------------------------------------------------- a run

  /** The user and the turns after playing against the given answers of the server. */
  function Run(c: Config, worlds: seq<World>): (r: (User, seq<Turn>))
    requires Usable(c)
    ensures |r.1| == |worlds|
  {
    if worlds == [] then (FRESH_USER, [])
    else
      var n := |worlds| - 1;
      var before := Run(c, worlds[..n]);
      var (u, t) := Turned(c, before.0, worlds[n]);
      (u, before.1 + [t])
  }

  predicate InSession(t: Turn, serial: nat) { t.Sent? && t.serial == serial }

  function SentIn(turns: seq<Turn>, serial: nat): nat {
    if turns == [] then 0
    else SentIn(turns[..|turns| - 1], serial) + (if InSession(turns[|turns| - 1], serial) then 1 else 0)
  }

  /** The last id a stream of the session reserved. */
  function LastParent(turns: seq<Turn>, serial: nat): Option<int> {
    if turns == [] then None
    else
      var t := turns[|turns| - 1];
      if InSession(t, serial) && t.reserved.Some? then t.reserved else LastParent(turns[..|turns| - 1], serial)
  }

  // ---------------------------------------------------------------- the invariant

  /** Session by session: turns are numbered, and all but the last of a session were read to the end. */
  ghost predicate Orderly(c: Config, turns: seq<Turn>) {
    && (forall i, j | 0 <= i < j < |turns| ::
          turns[i].Sent? && turns[j].Sent? ==> turns[i].serial <= turns[j].serial)
    && (forall i, j | 0 <= i < j < |turns| ::
          turns[i].Sent? && InSession(turns[j], turns[i].serial) ==>
            turns[i].outcome.ReadToEnd? && turns[j].payload.session == turns[i].payload.session)
  }

  /** How the fields describe the turns of the session that is still open. */
  ghost predicate Current(c: Config, u: User, turns: seq<Turn>) {
    && u.turnIndex == |turns|
    && (forall i | 0 <= i < |turns| :: turns[i].Sent? ==> turns[i].serial <= u.serials)
    && (c.maxSessionTurns > 1 && u.session.Some? ==>
          && u.sessionTurn == SentIn(turns, u.serials)
          && u.parent == LastParent(turns, u.serials)
          && forall i | 0 <= i < |turns| :: InSession(turns[i], u.serials) ==>
               turns[i].outcome.ReadToEnd? && turns[i].payload.session == u.session)
  }

  lemma {:induction false} UnopenedIsEmpty(turns: seq<Turn>, serial: nat)
    requires forall i | 0 <= i < |turns| :: turns[i].Sent? ==> turns[i].serial < serial
    ensures SentIn(turns, serial) == 0 && LastParent(turns, serial) == None
  {
    if turns != [] {
      assert forall i | 0 <= i < |turns| - 1 :: turns[..|turns| - 1][i] == turns[i];
      UnopenedIsEmpty(turns[..|turns| - 1], serial);
    }
  }

  /** What the payload step settles: the session to send to is the open one, with its parent. */
  ghost predicate Ready(c: Config, u: User, p: Payload, turns: seq<Turn>)
    requires Usable(c)
  {
    && Current(c, u.(turnIndex := |turns|), turns)
    && u.turnIndex == |turns| + 1
    && p.message == c.messages[|turns| % |c.messages|]
    && SentIn(turns, u.serials) < Limit(c)
    && p.parent == LastParent(turns, u.serials)
    && (if c.maxSessionTurns > 1 then u.session.Some? && p.session == u.session && p.parent == u.parent
        else p.session.None? && SentIn(turns, u.serials) == 0)
    && (forall i | 0 <= i < |turns| :: InSession(turns[i], u.serials) ==>
          turns[i].outcome.ReadToEnd? && turns[i].payload.session == p.session)
  }

  function Limit(c: Config): nat { if c.maxSessionTurns > 1 then c.maxSessionTurns else 1 }

  lemma {:induction false} PayloadIsReady(c: Config, u: User, creation: Creation, turns: seq<Turn>)
    requires Usable(c) && Current(c, u, turns)
    ensures var (p, v) :=
              NextPayload(c, u.(turnIndex := u.turnIndex + 1), c.messages[u.turnIndex % |c.messages|], creation);
            if p.Some? then Ready(c, v, p.value, turns)
            else Current(c, v.(turnIndex := |turns|), turns) && v.turnIndex == |turns| + 1
  {
    UnopenedIsEmpty(turns, u.serials + 1);
  }

  /** The turn is told apart from its session: what it adds to the two measures. */
  lemma {:induction false} MeasuresSnoc(turns: seq<Turn>, t: Turn, serial: nat)
    ensures SentIn(turns + [t], serial) == SentIn(turns, serial) + (if InSession(t, serial) then 1 else 0)
    ensures LastParent(turns + [t], serial) ==
              if InSession(t, serial) && t.reserved.Some? then t.reserved else LastParent(turns, serial)
  {
    assert (turns + [t])[..|turns|] == turns;
  }

  lemma {:induction false} ExchangeKeepsCurrent(c: Config, u: User, p: Payload, response: Response, turns: seq<Turn>)
    requires Usable(c) && Ready(c, u, p, turns)
    ensures var (v, t) := Exchanged(c, u, p, response);
            && t.Sent? && t.serial == u.serials && t.payload == p
            && Current(c, v, turns + [t])
  {
    var (v, t) := Exchanged(c, u, p, response);
    MeasuresSnoc(turns, t, u.serials);
    assert (turns + [t])[|turns|] == t;
    assert forall i | 0 <= i < |turns| :: (turns + [t])[i] == turns[i];
  }

  lemma {:induction false} ExchangeKeepsOrder(c: Config, u: User, p: Payload, t: Turn, turns: seq<Turn>)
    requires Usable(c) && Ready(c, u, p, turns) && Orderly(c, turns)
    requires t.Sent? && t.serial == u.serials && t.payload == p
    ensures Orderly(c, turns + [t])
  {
    var all := turns + [t];
    assert all[|turns|] == t;
    assert forall i | 0 <= i < |turns| :: all[i] == turns[i];
  }

  /** What a sent turn owes to the turns before it. */
  ghost predicate Owed(c: Config, turns: seq<Turn>, t: Turn)
    requires Usable(c)
  {
    t.Sent? ==>
      && t.payload.parent == LastParent(turns, t.serial)
      && SentIn(turns, t.serial) < Limit(c)
      && t.payload.message == c.messages[|turns| % |c.messages|]
      && (c.maxSessionTurns <= 1 ==> t.payload.session.None? && t.payload.parent.None?)
      && (c.maxSessionTurns > 1 ==> t.payload.session.Some?)
  }

  ghost predicate AllOwed(c: Config, turns: seq<Turn>)
    requires Usable(c)
  {
    forall i | 0 <= i < |turns| :: Owed(c, turns[..i], turns[i])
  }

  lemma {:induction false} AllOwedSnoc(c: Config, turns: seq<Turn>, t: Turn)
    requires Usable(c) && AllOwed(c, turns) && Owed(c, turns, t)
    ensures AllOwed(c, turns + [t])
  {
    var all := turns + [t];
    forall i | 0 <= i < |all| ensures Owed(c, all[..i], all[i]) {
      assert all[..i] == if i < |turns| then turns[..i] else turns;
    }
  }

  lemma {:induction false} RunInvariant(c: Config, worlds: seq<World>)
    requires Usable(c)
    ensures Current(c, Run(c, worlds).0, Run(c, worlds).1)
    ensures Orderly(c, Run(c, worlds).1)
    ensures AllOwed(c, Run(c, worlds).1)
  {
    if worlds != [] {
      var n := |worlds| - 1;
      RunInvariant(c, worlds[..n]);
      var (u, turns) := Run(c, worlds[..n]);
      OneTurn(c, u, worlds[n], turns);
      var (v, t) := Turned(c, u, worlds[n]);
      AllOwedSnoc(c, turns, t);
      assert Run(c, worlds) == (v, turns + [t]);
    }
  }

  lemma {:induction false} OneTurn(c: Config, u: User, w: World, turns: seq<Turn>)
    requires Usable(c) && Current(c, u, turns) && Orderly(c, turns)
    ensures var (v, t) := Turned(c, u, w);
            Current(c, v, turns + [t]) && Orderly(c, turns + [t]) && Owed(c, turns, t)
  {
    PayloadIsReady(c, u, w.creation, turns);
    var (p, v) := NextPayload(c, u.(turnIndex := u.turnIndex + 1), c.messages[u.turnIndex % |c.messages|], w.creation);
    if p.Some? {
      ExchangeKeepsCurrent(c, v, p.value, w.response, turns);
      ExchangeKeepsOrder(c, v, p.value, Exchanged(c, v, p.value, w.response).1, turns);
    } else {
      SkipKeeps(c, v, turns);
    }
  }

  lemma {:induction false} SkipKeeps(c: Config, v: User, turns: seq<Turn>)
    requires Current(c, v.(turnIndex := |turns|), turns) && v.turnIndex == |turns| + 1 && Orderly(c, turns)
    ensures Current(c, v, turns + [Skipped]) && Orderly(c, turns + [Skipped])
  {
    var all := turns + [Skipped];
    MeasuresSnoc(turns, Skipped, v.serials);
    assert all[|turns|] == Skipped;
    assert forall i | 0 <= i < |turns| :: all[i] == turns[i];
  }

  // ---------------------------------------------------------------- over any run

  /** Each sent parent is the id that the last stream of the same session to reserve one reserved. */
  lemma {:induction false} ParentsWereReserved(c: Config, worlds: seq<World>, i: nat)
    requires Usable(c) && i < |worlds|
    requires Run(c, worlds).1[i].Sent?
    ensures var turns := Run(c, worlds).1;
            && turns[i].payload.parent == LastParent(turns[..i], turns[i].serial)
            && (turns[i].payload.parent.Some? ==>
                  exists j | 0 <= j < i :: InSession(turns[j], turns[i].serial)
                      && turns[j].reserved == turns[i].payload.parent)
  {
    RunInvariant(c, worlds);
    var turns := Run(c, worlds).1;
    assert Owed(c, turns[..i], turns[i]);
    LastParentIsSomewhere(turns[..i], turns[i].serial);
  }

  lemma {:induction false} LastParentIsSomewhere(turns: seq<Turn>, serial: nat)
    ensures LastParent(turns, serial).Some? ==>
              exists j | 0 <= j < |turns| ::
                  InSession(turns[j], serial) && turns[j].reserved == LastParent(turns, serial)
  {
    if turns != [] {
      var n := |turns| - 1;
      LastParentIsSomewhere(turns[..n], serial);
      if LastParent(turns[..n], serial).Some? {
        var j :| 0 <= j < n && InSession(turns[..n][j], serial)
            && turns[..n][j].reserved == LastParent(turns[..n], serial);
        assert turns[j] == turns[..n][j];
      }
    }
  }

  /** No session is sent to more often than the setting allows (once, when sessions are not kept). */
  lemma {:induction false} SessionsAreBounded(c: Config, worlds: seq<World>, serial: nat)
    requires Usable(c)
    ensures SentIn(Run(c, worlds).1, serial) <= Limit(c)
  {
    if worlds != [] {
      var n := |worlds| - 1;
      SessionsAreBounded(c, worlds[..n], serial);
      RunInvariant(c, worlds);
      var turns := Run(c, worlds).1;
      assert turns[..n] == Run(c, worlds[..n]).1;
      assert Owed(c, turns[..n], turns[n]);
    }
  }

  /** A session that met an error status, an exception or a disconnect is never sent to again. */
  lemma {:induction false} BadSessionsAreLeft(c: Config, worlds: seq<World>, i: nat, j: nat)
    requires Usable(c) && i < j < |worlds|
    requires Run(c, worlds).1[i].Sent? && InSession(Run(c, worlds).1[j], Run(c, worlds).1[i].serial)
    ensures Run(c, worlds).1[i].outcome.ReadToEnd?
    ensures Run(c, worlds).1[i].payload.session == Run(c, worlds).1[j].payload.session
    ensures forall k | i <= k <= j && Run(c, worlds).1[k].Sent? ::
                Run(c, worlds).1[k].serial == Run(c, worlds).1[i].serial
  {
    RunInvariant(c, worlds);
  }

  /** A user that keeps no sessions never names one, and never a parent. */
  lemma {:induction false} SingleTurnsNameNothing(c: Config, worlds: seq<World>, i: nat)
    requires Usable(c) && i < |worlds|
    ensures var t := Run(c, worlds).1[i];
            t.Sent? ==>
              && (t.payload.session.None? <==> c.maxSessionTurns <= 1)
              && (c.maxSessionTurns <= 1 ==> t.payload.parent.None?)
              && t.payload.message == c.messages[i % |c.messages|]
  {
    RunInvariant(c, worlds);
    assert Owed(c, Run(c, worlds).1[..i], Run(c, worlds).1[i]);
  }

  // ---------------------------------------------------------------- what a turn reports

  predicate IsFinal(f: Fire) { !f.Hit? }

  /** Nothing but milestones, each once, and then one final record. */
  ghost predicate WellReported(fired: seq<Fire>) {
    && fired != [] && IsFinal(fired[|fired| - 1])
    && (forall i | 0 <= i < |fired| - 1 :: fired[i].Hit?)
    && Distinct(fired)
  }

  /** What reading fires, given the milestones marked before. */
  ghost predicate FiresOnce(marked: set<Milestone>, r: Reading, target: Option<Milestone>) {
    && Distinct(r.fired)
    && (forall m | m in r.fired :: m !in marked)
    && (r.disconnected ==> target.Some? && r.fired != [] && r.fired[|r.fired| - 1] == target.value && !r.raised)
    && (!r.disconnected ==> target.None? || target.value !in r.fired)
  }

  /** Milestones fired while reading are new and pairwise different. */
  lemma {:induction false} ReadFiresOnce(s: Summary, lines: seq<Line>, target: Option<Milestone>)
    ensures FiresOnce(s.marked, Read(s, lines, target), target)
    decreases |lines|, 0
  {
    if lines != [] {
      OneLineHits(s, lines[0]);
      ReadAfterFiresOnce(s.marked, FedLine(s, lines[0]), lines[1..], target);
    }
  }

  lemma {:induction false} ReadAfterFiresOnce(marked: set<Milestone>, f: Fed, rest: seq<Line>,
                                              target: Option<Milestone>)
    requires HitsAreNew(marked, f)
    ensures FiresOnce(marked, ReadAfter(f, rest, target), target)
    decreases |rest|, 1
  {
    if !f.raised && !Reaches(f.hit, target) {
      var later := Read(f.summary, rest, target);
      ReadFiresOnce(f.summary, rest, target);
      assert forall m | m in later.fired :: m !in f.hit;
      JoinDistinct(f.hit, later.fired);
    }
  }

  lemma {:induction false} JoinDistinct(a: seq<Milestone>, b: seq<Milestone>)
    requires Distinct(a) && Distinct(b) && forall m | m in b :: m !in a
    ensures Distinct(a + b)
  {
    forall i, j | 0 <= i < j < |a + b| ensures (a + b)[i] != (a + b)[j] {
      if i < |a| <= j {
        assert b[j - |a|] in b && a[i] in a;
      }
    }
  }

  /**
   Every turn that was sent reports each milestone at most once and then exactly one of
   total_turn and disconnected: disconnected just when the target milestone arrived, and a
   successful total_turn just when the whole stream was read and complete.
   */
  lemma {:induction false} OneFinalRecord(c: Config, worlds: seq<World>, i: nat)
    requires Usable(c) && i < |worlds|
    requires Run(c, worlds).1[i].Sent?
    ensures var t := Run(c, worlds).1[i];
            && WellReported(t.fired)
            && (t.fired[|t.fired| - 1].Disconnected? <==> t.outcome.Dropped?)
            && (t.outcome.Dropped? <==> c.disconnectAfter.Some? && Hit(c.disconnectAfter.value) in t.fired)
            && (t.fired[|t.fired| - 1] == TotalTurn(true) <==> t.outcome == ReadToEnd(true))
  {
    RunTurn(c, worlds, i);
    var u := Run(c, worlds[..i]).0;
    ReportsWell(c, u, worlds[i]);
  }

  lemma {:induction false} RunTurn(c: Config, worlds: seq<World>, i: nat)
    requires Usable(c) && i < |worlds|
    ensures Run(c, worlds).1[i] == Turned(c, Run(c, worlds[..i]).0, worlds[i]).1
    decreases |worlds|
  {
    var n := |worlds| - 1;
    if i < n {
      RunTurn(c, worlds[..n], i);
      assert worlds[..n][..i] == worlds[..i];
    }
  }

  lemma {:induction false} ReportsWell(c: Config, u: User, w: World)
    requires Usable(c) && Turned(c, u, w).1.Sent?
    ensures var t := Turned(c, u, w).1;
            && WellReported(t.fired)
            && (t.fired[|t.fired| - 1].Disconnected? <==> t.outcome.Dropped?)
            && (t.outcome.Dropped? <==> c.disconnectAfter.Some? && Hit(c.disconnectAfter.value) in t.fired)
            && (t.fired[|t.fired| - 1] == TotalTurn(true) <==> t.outcome == ReadToEnd(true))
  {
    if w.response.Stream? {
      ReadFiresOnce(BLANK_SUMMARY, w.response.lines, c.disconnectAfter);
      var r := Read(BLANK_SUMMARY, w.response.lines, c.disconnectAfter);
      var hits := Milestones(r.fired);
      assert forall m :: Hit(m) in hits <==> m in r.fired by {
        forall m ensures Hit(m) in hits <==> m in r.fired {
          if m in r.fired {
            var k :| 0 <= k < |r.fired| && r.fired[k] == m;
            assert hits[k] == Hit(m);
          }
        }
      }
    }
  }

  // ---------------------------------------------------------------- how a stream is read

  /** Reading stops at line `n`: it raises, or the target has been marked by then; no earlier line does either. */
  predicate StopsAt(lines: seq<Line>, target: Option<Milestone>, n: nat) {
    && n < |lines| && Stops(lines, target, n)
    && forall m | 0 <= m < n :: !Stops(lines, target, m)
  }

  predicate Stops(lines: seq<Line>, target: Option<Milestone>, n: nat)
    requires n < |lines|
  {
    LineRaises(lines[n]) || (target.Some? && target.value in SummaryOf(lines[..n + 1]).marked)
  }

  /** Reading line `k`, when nothing stopped it before: it stops there, or goes on with the line counted. */
  lemma {:induction false} ReadLine(lines: seq<Line>, k: nat, target: Option<Milestone>)
    requires k < |lines| && (target.Some? ==> target.value !in SummaryOf(lines[..k]).marked)
    ensures var r := Read(SummaryOf(lines[..k]), lines[k..], target);
            var later := Read(SummaryOf(lines[..k + 1]), lines[k + 1..], target);
            var hit := FedLine(SummaryOf(lines[..k]), lines[k]).hit;
            if Stops(lines, target, k) then
              && r.summary == SummaryOf(lines[..k + 1])
              && (r.raised <==> LineRaises(lines[k])) && (r.disconnected <==> !LineRaises(lines[k]))
              && r.fired == if LineRaises(lines[k]) then [] else FiredOf(hit, target)
            else
              && !LineRaises(lines[k]) && r.summary == later.summary
              && r.raised == later.raised && r.disconnected == later.disconnected
              && r.fired == FiredOf(hit, target) + later.fired && FiredOf(hit, target) == hit
  {
    assert lines[k..] == [lines[k]] + lines[k + 1..];
    ReadUnfolds(SummaryOf(lines[..k]), lines[k], lines[k + 1..], target);
    NextReturned(lines, k);
    RaisesIff(SummaryOf(lines[..k]), lines[k]);
    OneLineHits(SummaryOf(lines[..k]), lines[k]);
  }

  lemma {:induction false} StopsOnce(lines: seq<Line>, target: Option<Milestone>, k: nat)
    requires k < |lines| && Stops(lines, target, k) && forall m | 0 <= m < k :: !Stops(lines, target, m)
    ensures StopsAt(lines, target, k) && forall n: nat | StopsAt(lines, target, n) :: n == k
  {}

  /** How reading ended: at the first line that stops it, or with the last line. */
  ghost predicate ReadsTo(lines: seq<Line>, target: Option<Milestone>, r: Reading) {
    && ((forall n: nat :: !StopsAt(lines, target, n)) ==>
         r.summary == SummaryOf(lines) && !r.disconnected && !r.raised)
    && (forall n: nat | StopsAt(lines, target, n) ::
         && r.summary == SummaryOf(lines[..n + 1])
         && (r.raised <==> LineRaises(lines[n])) && (r.disconnected <==> !LineRaises(lines[n])))
  }

  lemma {:induction false} ReadFrom(lines: seq<Line>, k: nat, target: Option<Milestone>)
    requires k <= |lines| && forall m | 0 <= m < k :: !Stops(lines, target, m)
    ensures ReadsTo(lines, target, Read(SummaryOf(lines[..k]), lines[k..], target))
    decreases |lines| - k
  {
    if k == |lines| {
      assert lines[..k] == lines;
    } else {
      NotMarkedYet(lines, k, target);
      ReadLine(lines, k, target);
      if Stops(lines, target, k) {
        StopsOnce(lines, target, k);
      } else {
        ReadFrom(lines, k + 1, target);
      }
    }
  }

  lemma {:induction false} NotMarkedYet(lines: seq<Line>, k: nat, target: Option<Milestone>)
    requires k <= |lines| && forall m | 0 <= m < k :: !Stops(lines, target, m)
    ensures target.Some? ==> target.value !in SummaryOf(lines[..k]).marked
  {
    if k > 0 {
      assert !Stops(lines, target, k - 1);
    }
  }

  /** The milestones fired: those the analyser returned, up to the target. */
  ghost predicate FiresTo(lines: seq<Line>, target: Option<Milestone>, fired: seq<Milestone>) {
    && ((forall n: nat :: !StopsAt(lines, target, n)) ==> fired == Returned(lines))
    && (forall n: nat | StopsAt(lines, target, n) ::
         fired == Returned(lines[..n]) + if LineRaises(lines[n]) then [] else HitsAt(lines, target, n))
  }

  /** What was fired before line `k` and what is fired from there on. */
  function FiredInAll(lines: seq<Line>, k: nat, target: Option<Milestone>): seq<Milestone>
    requires k <= |lines|
  {
    Returned(lines[..k]) + Read(SummaryOf(lines[..k]), lines[k..], target).fired
  }

  lemma {:induction false} FiredOn(lines: seq<Line>, k: nat, target: Option<Milestone>)
    requires k < |lines| && forall m | 0 <= m <= k :: !Stops(lines, target, m)
    ensures FiredInAll(lines, k, target) == FiredInAll(lines, k + 1, target)
  {
    NotMarkedYet(lines, k, target);
    ReadLine(lines, k, target);
    NextReturned(lines, k);
    RaisesIff(SummaryOf(lines[..k]), lines[k]);
    Regrouped(Returned(lines[..k]), FedLine(SummaryOf(lines[..k]), lines[k]).hit,
              Read(SummaryOf(lines[..k + 1]), lines[k + 1..], target).fired);
  }

  lemma {:induction false} FiredAtStop(lines: seq<Line>, k: nat, target: Option<Milestone>)
    requires StopsAt(lines, target, k)
    ensures FiredInAll(lines, k, target)
         == Returned(lines[..k]) + if LineRaises(lines[k]) then [] else HitsAt(lines, target, k)
  {
    NotMarkedYet(lines, k, target);
    ReadLine(lines, k, target);
  }

  lemma {:induction false} FiredFrom(lines: seq<Line>, k: nat, target: Option<Milestone>)
    requires k <= |lines| && forall m | 0 <= m < k :: !Stops(lines, target, m)
    ensures FiresTo(lines, target, FiredInAll(lines, k, target))
    decreases |lines| - k
  {
    if k == |lines| {
      assert lines[..k] == lines;
      assert Returned(lines) + [] == Returned(lines);
    } else if Stops(lines, target, k) {
      StopsOnce(lines, target, k);
      FiredAtStop(lines, k, target);
    } else {
      FiredOn(lines, k, target);
      FiredFrom(lines, k + 1, target);
    }
  }

  /** What line `n` hits newly, up to the target. */
  function HitsAt(lines: seq<Line>, target: Option<Milestone>, n: nat): seq<Milestone>
    requires n < |lines|
  {
    FiredOf(FedLine(SummaryOf(lines[..n]), lines[n]).hit, target)
  }

  lemma {:induction false} NextReturned(lines: seq<Line>, k: nat)
    requires k < |lines|
    ensures var f := FedLine(SummaryOf(lines[..k]), lines[k]);
            && SummaryOf(lines[..k + 1]) == f.summary
            && Returned(lines[..k + 1]) == Returned(lines[..k]) + if f.raised then [] else f.hit
  {
    assert lines[..k + 1][..k] == lines[..k];
  }

  lemma {:induction false} Regrouped(a: seq<Milestone>, b: seq<Milestone>, c: seq<Milestone>)
    ensures a + (b + c) == a + b + c
  {}

  /** The turn reported these milestones, and then its end. */
  predicate Reports(t: Turn, milestones: seq<Milestone>)
    requires t.Sent?
  {
    t.fired == Milestones(milestones) + [match t.outcome
                                         case HttpFailed => TotalTurn(false)
                                         case Raised => TotalTurn(false)
                                         case Dropped => Disconnected
                                         case ReadToEnd(ok) => TotalTurn(ok)]
  }

  /** How a sent turn ended, told from the answer of the server. */
  ghost predicate EndsAs(c: Config, response: Response, t: Turn)
    requires t.Sent?
  {
    match response
    case HttpError => t.outcome == HttpFailed && t.reserved == None && Reports(t, [])
    case Stream(lines, breaks) =>
      && (forall n: nat | StopsAt(lines, c.disconnectAfter, n) ::
           Reports(t, Returned(lines[..n])
                      + if LineRaises(lines[n]) then [] else HitsAt(lines, c.disconnectAfter, n)))
      && ((forall n: nat :: !StopsAt(lines, c.disconnectAfter, n)) ==> Reports(t, Returned(lines)))
      && (forall n: nat | StopsAt(lines, c.disconnectAfter, n) ::
           t.outcome == (if LineRaises(lines[n]) then Raised else Dropped)
               && t.reserved == LastReserved(lines[..n + 1]))
      && ((forall n: nat :: !StopsAt(lines, c.disconnectAfter, n)) ==>
           t.outcome == (if breaks then Raised else ReadToEnd(CompletedOk(SummaryOf(lines))))
           && t.reserved == LastReserved(lines))
  }

  lemma {:induction false} ExchangeEnds(c: Config, u: User, p: Payload, response: Response)
    ensures Exchanged(c, u, p, response).1.Sent? && EndsAs(c, response, Exchanged(c, u, p, response).1)
  {
    if response.Stream? {
      var lines, target := response.lines, c.disconnectAfter;
      assert lines[..0] == [] && lines[0..] == lines;
      ReadFrom(lines, 0, target);
      FiredFrom(lines, 0, target);
      assert Returned(lines[..0]) + Read(BLANK_SUMMARY, lines, target).fired
          == Read(BLANK_SUMMARY, lines, target).fired;
      SummaryDescribesLines(lines);
      forall n: nat | StopsAt(lines, target, n)
        ensures SummaryOf(lines[..n + 1]).reserved == LastReserved(lines[..n + 1])
      {
        SummaryDescribesLines(lines[..n + 1]);
      }
      if n: nat :| StopsAt(lines, target, n) {
        assert Read(BLANK_SUMMARY, lines, target).raised <==> LineRaises(lines[n]);
      }
    }
  }

  // ---------------------------------------------------------------- which session a turn goes to

  /** The session of the last turn can be used again: its stream was read to the end and it has turns left. */
  predicate HasTurnsLeft(c: Config, turns: seq<Turn>) {
    && turns != []
    && var last := turns[|turns| - 1];
       last.Sent? && last.outcome.ReadToEnd? && SentIn(turns, last.serial) < c.maxSessionTurns
  }

  ghost predicate StillOpen(c: Config, u: User, turns: seq<Turn>) {
    && (HasTurnsLeft(c, turns) <==> u.session.Some? && u.sessionTurn < c.maxSessionTurns)
    && (HasTurnsLeft(c, turns) ==>
         turns[|turns| - 1].serial == u.serials && turns[|turns| - 1].payload.session == u.session)
  }

  lemma {:induction false} ExchangeLeavesOpen(c: Config, u: User, p: Payload, response: Response, turns: seq<Turn>)
    requires Usable(c) && c.maxSessionTurns > 1 && Ready(c, u, p, turns)
    ensures var (v, t) := Exchanged(c, u, p, response); StillOpen(c, v, turns + [t])
  {
    var (v, t) := Exchanged(c, u, p, response);
    ExchangeKeepsCurrent(c, u, p, response, turns);
    assert (turns + [t])[|turns|] == t;
  }

  lemma {:induction false} TurnLeavesOpen(c: Config, u: User, w: World, turns: seq<Turn>)
    requires Usable(c) && c.maxSessionTurns > 1 && Current(c, u, turns)
    ensures var (v, t) := Turned(c, u, w); StillOpen(c, v, turns + [t])
  {
    PayloadIsReady(c, u, w.creation, turns);
    var (p, v) := NextPayload(c, u.(turnIndex := u.turnIndex + 1), c.messages[u.turnIndex % |c.messages|], w.creation);
    if p.Some? {
      ExchangeLeavesOpen(c, v, p.value, w.response, turns);
    } else {
      assert (turns + [Skipped])[|turns|] == Skipped;
    }
  }

  lemma {:induction false} OpenIff(c: Config, worlds: seq<World>)
    requires Usable(c) && c.maxSessionTurns > 1
    ensures StillOpen(c, Run(c, worlds).0, Run(c, worlds).1)
  {
    if worlds != [] {
      var n := |worlds| - 1;
      RunInvariant(c, worlds[..n]);
      TurnLeavesOpen(c, Run(c, worlds[..n]).0, worlds[n], Run(c, worlds[..n]).1);
    }
  }

  /** The session of a turn that follows these ones. */
  predicate GoesTo(c: Config, turns: seq<Turn>, creation: Creation, t: Turn) {
    if HasTurnsLeft(c, turns) then
      var last := turns[|turns| - 1];
      t.Sent? && t.serial == last.serial && t.payload.session == last.payload.session
    else if creation.Created? && creation.id != "" then
      t.Sent? && SentIn(turns, t.serial) == 0 && t.payload.session == Some(creation.id) && t.payload.parent == None
    else t.Skipped?
  }

  lemma {:induction false} TurnGoesTo(c: Config, u: User, w: World, turns: seq<Turn>)
    requires Usable(c) && c.maxSessionTurns > 1 && Current(c, u, turns) && StillOpen(c, u, turns)
    ensures GoesTo(c, turns, w.creation, Turned(c, u, w).1)
  {
    UnopenedIsEmpty(turns, u.serials + 1);
  }

  /**
   Which session a turn of a user that keeps sessions goes to: the one of the turn before while it has turns
   left, else a new one if the server creates it, and none at all if it does not.
   */
  lemma {:induction false} SessionOfTurn(c: Config, worlds: seq<World>, i: nat)
    requires Usable(c) && c.maxSessionTurns > 1 && i < |worlds|
    ensures GoesTo(c, Run(c, worlds).1[..i], worlds[i].creation, Run(c, worlds).1[i])
  {
    RunTurn(c, worlds, i);
    RunPrefix(c, worlds, i);
    OpenIff(c, worlds[..i]);
    RunInvariant(c, worlds[..i]);
    TurnGoesTo(c, Run(c, worlds[..i]).0, worlds[i], Run(c, worlds[..i]).1);
  }

  lemma {:induction false} RunPrefix(c: Config, worlds: seq<World>, i: nat)
    requires Usable(c) && i <= |worlds|
    ensures Run(c, worlds).1[..i] == Run(c, worlds[..i]).1
  {
    if i == |worlds| {
      assert worlds[..i] == worlds;
    } else {
      var n := |worlds| - 1;
      RunPrefix(c, worlds[..n], i);
      assert worlds[..n][..i] == worlds[..i];
    }
  }

  /** How every sent turn of a run ended, told from what the server answered. */
  lemma {:induction false} TurnsEndAsAnswered(c: Config, worlds: seq<World>, i: nat)
    requires Usable(c) && i < |worlds| && Run(c, worlds).1[i].Sent?
    ensures EndsAs(c, worlds[i].response, Run(c, worlds).1[i])
  {
    RunTurn(c, worlds, i);
    var u := Run(c, worlds[..i]).0;
    var next := NextPayload(c, u.(turnIndex := u.turnIndex + 1), c.messages[u.turnIndex % |c.messages|],
        worlds[i].creation);
    ExchangeEnds(c, next.1, next.0.value, worlds[i].response);
  }

  // ---------------------------------------------------------------- the loops

  lemma {:induction false} MilestonesJoin(a: seq<Milestone>, b: seq<Milestone>)
    ensures Milestones(a + b) == Milestones(a) + Milestones(b)
  {
  }

  /** The inner loop stops right after the target, or at the end. */
  predicate StopsAfter(hit: seq<Milestone>, k: nat, target: Option<Milestone>) {
    && k <= |hit| && (forall j | 0 <= j < k - 1 :: Some(hit[j]) != target)
    && (k == |hit| || (k > 0 && Some(hit[k - 1]) == target))
  }

  lemma {:induction false} OneLater(hit: seq<Milestone>, k: nat, target: Option<Milestone>)
    requires StopsAfter(hit, k, target) && k > 0 && Some(hit[0]) != target
    ensures StopsAfter(hit[1..], k - 1, target) && hit[..k] == [hit[0]] + hit[1..][..k - 1]
  {}

  lemma {:induction false} FiredUpTo(hit: seq<Milestone>, k: nat, target: Option<Milestone>)
    requires StopsAfter(hit, k, target)
    ensures FiredOf(hit, target) == hit[..k]
  {
    if k > 0 && Some(hit[0]) != target {
      OneLater(hit, k, target);
      FiredUpTo(hit[1..], k - 1, target);
    }
  }

  lemma {:induction false} ReachedUpTo(hit: seq<Milestone>, k: nat, target: Option<Milestone>)
    requires StopsAfter(hit, k, target)
    ensures Reaches(hit, target) <==> k > 0 && Some(hit[k - 1]) == target
  {}

  /** Where reading stands after some lines, given what reading them all comes to. */
  ghost predicate Continues(all: Reading, target: Option<Milestone>, s: Summary, rest: seq<Line>,
                            fired: seq<Milestone>, disconnected: bool, raised: bool) {
    if disconnected || raised then all == Reading(s, fired, disconnected, raised)
    else all == Read(s, rest, target).(fired := fired + Read(s, rest, target).fired)
  }

  lemma {:induction false} ReadIsOver(all: Reading, target: Option<Milestone>, s: Summary, rest: seq<Line>,
                   fired: seq<Milestone>, disconnected: bool, raised: bool)
    requires Continues(all, target, s, rest, fired, disconnected, raised)
    requires disconnected || raised || rest == []
    ensures all == Reading(s, fired, disconnected, raised)
  {
    assert fired + [] == fired;
  }

  lemma {:induction false} ReadUnfolds(s: Summary, line: Line, rest: seq<Line>, target: Option<Milestone>)
    ensures Read(s, [line] + rest, target) == ReadAfter(FedLine(s, line), rest, target)
  {
    assert ([line] + rest)[1..] == rest;
  }

  lemma {:induction false} OneLineRead(all: Reading, target: Option<Milestone>, f: Fed, rest: seq<Line>,
                                       fired: seq<Milestone>)
    requires all == ReadAfter(f, rest, target).(fired := fired + ReadAfter(f, rest, target).fired)
    ensures var more := if f.raised then fired else fired + FiredOf(f.hit, target);
            Continues(all, target, f.summary, rest, more, !f.raised && Reaches(f.hit, target), f.raised)
  {
    assert fired + [] == fired;
    if !f.raised && !Reaches(f.hit, target) {
      var later := Read(f.summary, rest, target).fired;
      assert fired + (FiredOf(f.hit, target) + later) == fired + FiredOf(f.hit, target) + later;
    }
  }

  // ---------------------------------------------------------------- the user

  class OnyxChatUser {
    const config: Config
    var session: Option<string>
    var parent: Option<int>
    var sessionTurn: nat
    var turnIndex: nat
    ghost var serials: nat
    var reported: seq<Fire>

    ghost function State(): User
      reads this
    {
      User(session, parent, sessionTurn, turnIndex, serials)
    }

    constructor (config: Config)
      ensures this.config == config && State() == FRESH_USER && reported == []
    {
      this.config := config;
      session, parent, sessionTurn, turnIndex, serials, reported := None, None, 0, 0, 0, [];
    }

    method Next(message: string, creation: Creation) returns (payload: Option<Payload>)
      modifies this
      ensures (payload, State()) == NextPayload(config, old(State()), message, creation)
      ensures reported == old(reported)
    {
      if config.maxSessionTurns > 1 {
        if session.None? || sessionTurn >= config.maxSessionTurns {
          if creation.CreateRaised? {
            return None;
          }
          session := if creation.Created? && creation.id != "" then Some(creation.id) else None;
          parent := None;
          sessionTurn := 0;
          if session.None? {
            return None;
          }
          serials := serials + 1;
        }
        payload := Some(Payload(message, session, parent));
      } else {
        serials := serials + 1;
        payload := Some(Payload(message, None, None));
      }
    }

    /** Reads the stream, reporting each milestone as it is hit. */
    method ReadStream(lines: seq<Line>, analyzer: ChatStreamAnalyzer) returns (disconnected: bool, raised: bool)
      requires analyzer.Current() == BLANK_SUMMARY
      modifies this`reported, analyzer
      ensures var r := Read(BLANK_SUMMARY, lines, config.disconnectAfter);
              && analyzer.Current() == r.summary && disconnected == r.disconnected && raised == r.raised
              && reported == old(reported) + Milestones(r.fired)
    {
      disconnected, raised := false, false;
      ghost var all := Read(BLANK_SUMMARY, lines, config.disconnectAfter);
      ghost var fired: seq<Milestone> := [];
      var i := 0;
      assert lines[0..] == lines;
      assert [] + all.fired == all.fired;
      while i < |lines| && !disconnected && !raised
        invariant 0 <= i <= |lines|
        invariant Continues(all, config.disconnectAfter, analyzer.Current(), lines[i..], fired, disconnected, raised)
        invariant reported == old(reported) + Milestones(fired)
        decreases |lines| - i, if disconnected || raised then 0 else 1
      {
        assert lines[i..] == [lines[i]] + lines[i + 1..];
        ghost var added;
        disconnected, raised, added := ReadLine(lines[i], analyzer, all, lines[i + 1..], fired);
        MilestonesJoin(fired, added);
        fired := fired + added;
        i := i + 1;
      }
      ReadIsOver(all, config.disconnectAfter, analyzer.Current(), lines[i..], fired, disconnected, raised);
    }

    /** Feeds one line and reports its milestones. */
    method ReadLine(line: Line, analyzer: ChatStreamAnalyzer, ghost all: Reading, ghost rest: seq<Line>,
                    ghost fired: seq<Milestone>)
      returns (disconnected: bool, raised: bool, ghost added: seq<Milestone>)
      requires Continues(all, config.disconnectAfter, analyzer.Current(), [line] + rest, fired, false, false)
      modifies this`reported, analyzer
      ensures Continues(all, config.disconnectAfter, analyzer.Current(), rest, fired + added, disconnected, raised)
      ensures reported == old(reported) + Milestones(added)
    {
      ReadUnfolds(analyzer.Current(), line, rest, config.disconnectAfter);
      var hit;
      hit, raised := analyzer.Feed(line);
      OneLineRead(all, config.disconnectAfter, Fed(analyzer.Current(), hit, raised), rest, fired);
      disconnected, added := false, [];
      assert fired + [] == fired;
      if !raised {
        disconnected := Report(hit);
        added := FiredOf(hit, config.disconnectAfter);
      }
    }

    /** The inner loop over the milestones of one line. */
    method Report(hit: seq<Milestone>) returns (disconnected: bool)
      modifies this`reported
      ensures disconnected == Reaches(hit, config.disconnectAfter)
      ensures reported == old(reported) + Milestones(FiredOf(hit, config.disconnectAfter))
    {
      disconnected := false;
      var k := 0;
      assert Milestones(hit[..0]) == [];
      while k < |hit| && !disconnected
        invariant 0 <= k <= |hit|
        invariant reported == old(reported) + Milestones(hit[..k])
        invariant forall j | 0 <= j < (if disconnected then k - 1 else k) :: Some(hit[j]) != config.disconnectAfter
        invariant disconnected ==> k > 0 && Some(hit[k - 1]) == config.disconnectAfter
        decreases |hit| - k, if disconnected then 0 else 1
      {
        assert hit[..k + 1][..k] == hit[..k];
        reported := reported + [Hit(hit[k])];
        disconnected := Some(hit[k]) == config.disconnectAfter;
        k := k + 1;
      }
      FiredUpTo(hit, k, config.disconnectAfter);
      ReachedUpTo(hit, k, config.disconnectAfter);
    }

    /** One turn: the state and the records are those of Turned. */
    method ChatTurn(w: World) returns (ghost turn: Turn)
      requires Usable(config)
      modifies this
      ensures (State(), turn) == Turned(config, old(State()), w)
      ensures reported == old(reported) + (if turn.Sent? then turn.fired else [])
    {
      var message := config.messages[turnIndex % |config.messages|];
      turnIndex := turnIndex + 1;
      var payload := Next(message, w.creation);
      if payload.None? {
        turn := Skipped;
        return;
      }
      turn := Exchange(payload.value, w.response);
    }

    method Exchange(payload: Payload, response: Response) returns (ghost turn: Turn)
      modifies this
      ensures (State(), turn) == Exchanged(config, old(State()), payload, response)
      ensures turn.Sent? && reported == old(reported) + turn.fired
    {
      if response.HttpError? {
        reported := reported + [TotalTurn(false)];
        session := None;
        turn := Sent(serials, payload, None, [TotalTurn(false)], HttpFailed);
        return;
      }
      var analyzer := new ChatStreamAnalyzer();
      var disconnected, raised := ReadStream(response.lines, analyzer);
      ghost var hits := Milestones(Read(BLANK_SUMMARY, response.lines, config.disconnectAfter).fired);
      if raised || (response.breaks && !disconnected) {
        turn := Sent(serials, payload, analyzer.reserved, hits + [TotalTurn(false)], Raised);
        reported := reported + [TotalTurn(false)];
        session := None;
      } else if disconnected {
        turn := Sent(serials, payload, analyzer.reserved, hits + [Disconnected], Dropped);
        reported := reported + [Disconnected];
        session := None;
      } else {
        turn := Conclude(payload, analyzer.Current(), hits);
      }
    }

    /** The stream was read to its end: the session is kept, and only the report depends on the verdict. */
    method Conclude(payload: Payload, summary: Summary, ghost hits: seq<Fire>) returns (ghost turn: Turn)
      modifies this`sessionTurn, this`parent, this`reported
      ensures turn == Sent(serials, payload, summary.reserved, hits + [TotalTurn(CompletedOk(summary))],
                           ReadToEnd(CompletedOk(summary)))
      ensures State() == if config.maxSessionTurns > 1 then
                           old(State()).(sessionTurn := old(sessionTurn) + 1,
                                         parent := if summary.reserved.Some? then summary.reserved else old(parent))
                         else old(State())
      ensures reported == old(reported) + [TotalTurn(CompletedOk(summary))]
    {
      var ok := CompletedOk(summary);
      if config.maxSessionTurns > 1 {
        sessionTurn := sessionTurn + 1;
        if summary.reserved.Some? {
          parent := summary.reserved;
        }
      }
      reported := reported + [TotalTurn(ok)];
      turn := Sent(serials, payload, summary.reserved, hits + [TotalTurn(ok)], ReadToEnd(ok));
    }
  }
}
