/**
 The inbox of a listener (internal/cloudstep/cloudstep.go): messages are added by one goroutine while
 checks of many scenarios read them. Each of its methods holds its lock, so a run is some order of their
 calls: a check that fails because the inbox has ended has seen every message there ever is.
 */
module Inbox {
  import opened Wrappers

  datatype Message = Message(received: int, id: nat)

  datatype State = State(msgs: seq<Message>, err: Option<string>, ended: string)

  function Added(s: State, m: Message): State {
    s.(msgs := s.msgs + [m])
  }

  /** The first failure and the first end are kept. */
  function Failed(s: State, err: string): State {
    if s.err == None then s.(err := Some(err)) else s
  }

  function Ended(s: State, why: string): State {
    if s.ended == "" then s.(ended := why) else s
  }

  /** The messages received at a time or later, in order. */
  function Since(msgs: seq<Message>, t: int): seq<Message> {
    if msgs == [] then []
    else
      Since(msgs[..|msgs| - 1], t)
      + if msgs[|msgs| - 1].received >= t then [msgs[|msgs| - 1]] else []
  }

  class Inbox {
    var msgs: seq<Message>
    var err: Option<string>
    var ended: string

    constructor ()
      ensures Value() == State([], None, "")
    {
      msgs, err, ended := [], None, "";
    }

    function Value(): State
      reads this
    {
      State(msgs, err, ended)
    }

    /** A message that says not when it was received was so now. */
    method Add(id: nat, received: Option<int>, now: int)
      modifies this
      ensures Value() == Added(old(Value()), Message(match received { case None => now case Some(t) => t }, id))
    {
      var m := Message(now, id);
      if received.Some? { m := Message(received.value, id); }
      msgs := msgs + [m];
    }

    method Fail(err: string)
      modifies this
      ensures Value() == Failed(old(Value()), err)
    {
      if this.err == None { this.err := Some(err); }
    }

    method End(why: string)
      modifies this
      ensures Value() == Ended(old(Value()), why)
    {
      if ended == "" { ended := why; }
    }

    method HasEnded() returns (why: string, has: bool)
      ensures why == ended && (has <==> ended != "")
    {
      why, has := ended, ended != "";
    }

    method ReadSince(t: int) returns (out: seq<Message>, failure: Option<string>)
      ensures out == Since(msgs, t) && failure == err
    {
      out := [];
      for i := 0 to |msgs|
        invariant out == Since(msgs[..i], t)
      {
        assert msgs[..i + 1][..i] == msgs[..i];
        if msgs[i].received >= t { out := out + [msgs[i]]; }
      }
      assert msgs[..|msgs|] == msgs;
      failure := err;
    }
  }

  // ----------------------------------------------------------------- a check

  /** What conditions say of a message: it meets them, it does not, or they cannot be read of it. */
  datatype Verdict = Yes | No | Broken

  type Match = Message -> Verdict

  datatype Outcome = Matched | Refused(why: string) | Error | NotYet

  /** The first verdict on the messages that is not no. */
  function Scan(msgs: seq<Message>, match_: Match): Verdict {
    if msgs == [] then No else if match_(msgs[0]) != No then match_(msgs[0]) else Scan(msgs[1..], match_)
  }

  /** What a check concludes from why the inbox had ended, if it had, and what it then held. */
  function Conclusion(why: string, msgs: seq<Message>, err: Option<string>, match_: Match): Outcome {
    if err.Some? then Error
    else
      match Scan(msgs, match_)
      case Yes => Matched
      case Broken => Error
      case No => if why != "" then Refused(why) else NotYet
  }

  method Conclude(why: string, msgs: seq<Message>, err: Option<string>, match_: Match) returns (o: Outcome)
    ensures o == Conclusion(why, msgs, err, match_)
  {
    if err.Some? { return Error; }
    for i := 0 to |msgs|
      invariant Scan(msgs[i..], match_) == Scan(msgs, match_)
    {
      assert msgs[i..][1..] == msgs[i + 1..];
      var verdict := match_(msgs[i]);
      if verdict == Broken { return Error; }
      if verdict == Yes { return Matched; }
    }
    o := if why != "" then Refused(why) else NotYet;
  }

  /** One turn of a check, with nothing added between its two reads. */
  method LookOnce(inbox: Inbox, check: Check) returns (o: Outcome)
    ensures o == Conclusion(inbox.ended, Since(inbox.msgs, check.started), inbox.err, check.match_)
  {
    var why, _ := inbox.HasEnded();
    var msgs, err := inbox.ReadSince(check.started);
    o := Conclude(why, msgs, err, check.match_);
  }

  lemma {:induction false} ScanNo(msgs: seq<Message>, match_: Match)
    ensures Scan(msgs, match_) == No <==> forall m <- msgs :: match_(m) == No
  {
    if msgs != [] {
      assert msgs == [msgs[0]] + msgs[1..];
      ScanNo(msgs[1..], match_);
    }
  }

  lemma {:induction false} SinceAll(msgs: seq<Message>, t: int, m: Message)
    ensures m in Since(msgs, t) <==> m in msgs && m.received >= t
  {
    if msgs != [] {
      assert msgs == msgs[..|msgs| - 1] + [msgs[|msgs| - 1]];
      SinceAll(msgs[..|msgs| - 1], t, m);
    }
  }

  // ------------------------------------------------------------------- runs

  /** A scenario's check: when the scenario started, and what it looks for. */
  datatype Check = Check(started: int, match_: Match)

  /** Where a check is: between reading whether the inbox ended, what it holds, and concluding from what it has seen. */
  datatype Place =
    | Starting
    | Asked(why: string)
    | Looked(seen: seq<Message>, failure: Option<string>)
    | Ready(why: string, msgs: seq<Message>, err: Option<string>)
    | Done(outcome: Outcome, seen: seq<Message>)
    | TimedOut

  /** The inbox, what each check is at, and whether the listener has done its last: it adds before it ends. */
  datatype System = System(inbox: State, places: seq<Place>)

  datatype Step = Add(m: Message) | Fail(err: string) | End(why: string)
    | Ask(c: nat) | Look(c: nat) | Decide(c: nat) | Again(c: nat) | GiveUp(c: nat)

  function Start(n: nat): System {
    System(State([], None, ""), seq(n, _ => Starting))
  }

  function PlaceOf(s: System, c: nat): Place {
    if c < |s.places| then s.places[c] else TimedOut
  }

  predicate IsWaiting(p: Place) {
    p.Done? && p.outcome == NotYet
  }

  /** Whether a step can be next. The listener adds nothing once it has ended the inbox; a check asks, then looks. */
  predicate Enabled(askFirst: bool, s: System, step: Step) {
    match step
    case Add(_) => s.inbox.ended == ""
    case Fail(_) => true
    case End(_) => true
    case Ask(c) => if askFirst then PlaceOf(s, c) == Starting else PlaceOf(s, c).Looked?
    case Look(c) => if askFirst then PlaceOf(s, c).Asked? else PlaceOf(s, c) == Starting
    case Decide(c) => PlaceOf(s, c).Ready?
    case Again(c) => IsWaiting(PlaceOf(s, c))
    case GiveUp(c) => IsWaiting(PlaceOf(s, c))
  }

  function Move(s: System, c: nat, p: Place): System {
    if c < |s.places| then s.(places := s.places[c := p]) else s
  }

  function Apply(checks: seq<Check>, s: System, step: Step): System {
    match step
    case Add(m) => s.(inbox := Added(s.inbox, m))
    case Fail(err) => s.(inbox := Failed(s.inbox, err))
    case End(why) => s.(inbox := Ended(s.inbox, why))
    case Ask(c) =>
      (match PlaceOf(s, c)
       case Looked(msgs, err) => Move(s, c, Ready(s.inbox.ended, msgs, err))
       case _ => Move(s, c, Asked(s.inbox.ended)))
    case Look(c) =>
      if c >= |checks| then s
      else
        var msgs := Since(s.inbox.msgs, checks[c].started);
        (match PlaceOf(s, c)
         case Asked(why) => Move(s, c, Ready(why, msgs, s.inbox.err))
         case _ => Move(s, c, Looked(msgs, s.inbox.err)))
    case Decide(c) =>
      (match PlaceOf(s, c)
       case Ready(why, msgs, err) =>
         if c < |checks| then Move(s, c, Done(Conclusion(why, msgs, err, checks[c].match_), msgs)) else s
       case _ => s)
    case Again(c) => Move(s, c, Starting)
    case GiveUp(c) => Move(s, c, TimedOut)
  }

  function After(checks: seq<Check>, s: System, steps: seq<Step>): System
    decreases steps
  {
    if steps == [] then s else After(checks, Apply(checks, s, steps[0]), steps[1..])
  }

  predicate Runs(askFirst: bool, checks: seq<Check>, s: System, steps: seq<Step>)
    decreases steps
  {
    steps != [] ==> Enabled(askFirst, s, steps[0]) && Runs(askFirst, checks, Apply(checks, s, steps[0]), steps[1..])
  }

  // ------------------------------------------------------------- every run

  /** What a check knows: once it has asked and the inbox had ended, all there is. */
  predicate Knows(s: State, check: Check, p: Place) {
    match p
    case Asked(why) => why != "" ==> s.ended == why
    case Ready(why, msgs, _) => why != "" ==> s.ended == why && msgs == Since(s.msgs, check.started)
    case Done(Refused(why), seen) =>
      why != "" && s.ended == why && seen == Since(s.msgs, check.started) && Scan(seen, check.match_) == No
    case Looked(_, _) => false
    case _ => true
  }

  predicate Inv(checks: seq<Check>, s: System) {
    |s.places| == |checks| && forall c | 0 <= c < |checks| :: Knows(s.inbox, checks[c], s.places[c])
  }

  lemma StepKeeps(checks: seq<Check>, s: System, step: Step)
    requires Inv(checks, s) && Enabled(true, s, step)
    ensures Inv(checks, Apply(checks, s, step))
  {
  }

  lemma {:induction false} RunKeeps(checks: seq<Check>, s: System, steps: seq<Step>)
    requires Inv(checks, s) && Runs(true, checks, s, steps)
    ensures Inv(checks, After(checks, s, steps))
    decreases steps
  {
    if steps != [] {
      StepKeeps(checks, s, steps[0]);
      RunKeeps(checks, Apply(checks, s, steps[0]), steps[1..]);
    }
  }

  /** Once it has ended, the inbox holds what it does, and why it ended stays. */
  lemma {:induction false} EndedStays(askFirst: bool, checks: seq<Check>, s: System, steps: seq<Step>)
    requires s.inbox.ended != "" && Runs(askFirst, checks, s, steps)
    ensures var t := After(checks, s, steps); t.inbox.msgs == s.inbox.msgs && t.inbox.ended == s.inbox.ended
    decreases steps
  {
    if steps != [] { EndedStays(askFirst, checks, Apply(checks, s, steps[0]), steps[1..]); }
  }

  /** Messages stay. */
  lemma {:induction false} MessagesStay(checks: seq<Check>, s: System, steps: seq<Step>)
    ensures var t := After(checks, s, steps); s.inbox.msgs <= t.inbox.msgs
    decreases steps
  {
    if steps != [] { MessagesStay(checks, Apply(checks, s, steps[0]), steps[1..]); }
  }

  lemma {:induction false} AfterSplit(askFirst: bool, checks: seq<Check>, s: System, steps: seq<Step>, i: nat)
    requires i <= |steps| && Runs(askFirst, checks, s, steps)
    ensures var t := After(checks, s, steps[..i]);
      Runs(askFirst, checks, s, steps[..i]) && Runs(askFirst, checks, t, steps[i..])
      && After(checks, t, steps[i..]) == After(checks, s, steps)
    decreases steps
  {
    if i > 0 {
      AfterSplit(askFirst, checks, Apply(checks, s, steps[0]), steps[1..], i - 1);
      assert steps[..i][0] == steps[0] && steps[..i][1..] == steps[1..][..i - 1];
      assert steps[1..][i - 1..] == steps[i..];
    } else {
      assert steps[i..] == steps;
    }
  }

  /**
   What a check that fails because the inbox ended has seen is every message of the whole run since its
   scenario started, and none is what it looks for.
   */
  lemma RefusedSawAll(checks: seq<Check>, steps: seq<Step>, i: nat, c: nat)
    requires i <= |steps| && c < |checks| && Runs(true, checks, Start(|checks|), steps)
    requires var p := PlaceOf(After(checks, Start(|checks|), steps[..i]), c); p.Done? && p.outcome.Refused?
    ensures var seen := PlaceOf(After(checks, Start(|checks|), steps[..i]), c).seen;
      seen == Since(After(checks, Start(|checks|), steps).inbox.msgs, checks[c].started)
      && forall m <- seen :: checks[c].match_(m) == No
  {
    var s := After(checks, Start(|checks|), steps[..i]);
    AfterSplit(true, checks, Start(|checks|), steps, i);
    RunKeeps(checks, Start(|checks|), steps[..i]);
    assert Knows(s.inbox, checks[c], s.places[c]);
    EndedStays(true, checks, s, steps[i..]);
    ScanNo(s.places[c].seen, checks[c].match_);
  }

  /** A message it looks for, added before the inbox ends, never leads to that failure, in no state of the run. */
  lemma MatchNeverRefused(checks: seq<Check>, steps: seq<Step>, i: nat, j: nat, c: nat, m: Message)
    requires i <= |steps| && j <= |steps| && c < |checks| && Runs(true, checks, Start(|checks|), steps)
    requires m in After(checks, Start(|checks|), steps[..j]).inbox.msgs
    requires m.received >= checks[c].started && checks[c].match_(m) == Yes
    ensures var p := PlaceOf(After(checks, Start(|checks|), steps[..i]), c); p.Done? ==> !p.outcome.Refused?
  {
    AfterSplit(true, checks, Start(|checks|), steps, j);
    MessagesStay(checks, After(checks, Start(|checks|), steps[..j]), steps[j..]);
    var p := PlaceOf(After(checks, Start(|checks|), steps[..i]), c);
    if p.Done? && p.outcome.Refused? {
      RefusedSawAll(checks, steps, i, c);
      SinceAll(After(checks, Start(|checks|), steps).inbox.msgs, checks[c].started, m);
    }
  }

  function Any(m: Message): Verdict {
    Yes
  }

  /** Were a check to look first and ask after, it would miss a message added in between. */
  lemma LookingFirstMisses()
    ensures var m := Message(0, 0);
      var checks, steps := [Check(0, Any)], [Look(0), Add(m), End("closed"), Ask(0), Decide(0)];
      Runs(false, checks, Start(1), steps) && PlaceOf(After(checks, Start(1), steps), 0) == Done(Refused("closed"), [])
      && After(checks, Start(1), steps).inbox.msgs == [m]
  {
    var m := Message(0, 0);
    var checks, steps := [Check(0, Any)], [Look(0), Add(m), End("closed"), Ask(0), Decide(0)];
    var s0 := Start(1);
    var s1 := Apply(checks, s0, Look(0));
    var s2 := Apply(checks, s1, Add(m));
    var s3 := Apply(checks, s2, End("closed"));
    var s4 := Apply(checks, s3, Ask(0));
    var s5 := Apply(checks, s4, Decide(0));
    assert s1.places == [Looked([], None)] && s4.places == [Ready("closed", [], None)];
    assert s5.places == [Done(Refused("closed"), [])] && s5.inbox.msgs == [m];
    var t4: seq<Step> := [Decide(0)] + [];
    var t3 := [Ask(0)] + t4;
    var t2 := [End("closed")] + t3;
    var t1 := [Add(m)] + t2;
    assert steps == [Look(0)] + t1;
    OneStep(checks, s4, Decide(0), []);
    OneStep(checks, s3, Ask(0), t4);
    OneStep(checks, s2, End("closed"), t3);
    OneStep(checks, s1, Add(m), t2);
    OneStep(checks, s0, Look(0), t1);
  }

  lemma OneStep(checks: seq<Check>, s: System, step: Step, rest: seq<Step>)
    ensures After(checks, s, [step] + rest) == After(checks, Apply(checks, s, step), rest)
    ensures Runs(false, checks, s, [step] + rest)
       <==> Enabled(false, s, step) && Runs(false, checks, Apply(checks, s, step), rest)
  {
    assert ([step] + rest)[0] == step && ([step] + rest)[1..] == rest;
  }
}
