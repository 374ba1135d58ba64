/**
 Command hooks (internal/cli/commandhooks.go): a command runs between the hooks of the packs and those
 of axx.yaml, and its --json answers are held until the hooks after it have run. What a hook or a command
 ends with, and which writes fail, are given for each run; a hook is told by its place in its list.
 */
module CommandHooks {
  import opened Wrappers

  type Error = string

  datatype Phase = Before | After

  /** A hook of axx.yaml: what it runs before its command, and after. */
  datatype ConfigHook = ConfigHook(before: bool, after: bool)

  datatype Event = PackBefore(i: nat) | ConfigBefore(i: nat) | Command | ConfigAfter(i: nat) | PackAfter(i: nat)

  datatype Envelope = Envelope(ok: bool, data: string, errors: seq<Error>)

  /** What a run ends with; silently, when its error is in an answer already. */
  datatype Ending = Ended(err: Option<Error>) | Silent(error: Error)

  /** axx.yaml as the wrapper reads it. */
  datatype Setup = Unreadable | Misnamed(err: Error) | Hooks(packs: seq<Phase>, own: seq<ConfigHook>)

  /** What the command answers, and ends with. */
  datatype CommandRun = CommandRun(answers: seq<Envelope>, result: Option<Error>)

  type World = Event -> Option<Error>

  /** Whether the write after so many fails. */
  type Writer = nat -> Option<Error>

  // ------------------------------------------------------------- the hooks

  function PackBefores(packs: seq<Phase>, n: nat): seq<Event>
    requires n <= |packs|
  {
    if n == 0 then [] else PackBefores(packs, n - 1) + if packs[n - 1] == Before then [PackBefore(n - 1)] else []
  }

  function ConfigBefores(own: seq<ConfigHook>, n: nat): seq<Event>
    requires n <= |own|
  {
    if n == 0 then [] else ConfigBefores(own, n - 1) + if own[n - 1].before then [ConfigBefore(n - 1)] else []
  }

  function ConfigAfters(own: seq<ConfigHook>, n: nat): seq<Event>
    requires n <= |own|
  {
    if n == 0 then [] else ConfigAfters(own, n - 1) + if own[n - 1].after then [ConfigAfter(n - 1)] else []
  }

  /** The packs' hooks after a command, from the last back to the nth. */
  function PackAfters(packs: seq<Phase>, n: nat): seq<Event>
    requires n <= |packs|
    decreases |packs| - n
  {
    if n == |packs| then [] else PackAfters(packs, n + 1) + if packs[n] == After then [PackAfter(n)] else []
  }

  function Befores(packs: seq<Phase>, own: seq<ConfigHook>): seq<Event> {
    PackBefores(packs, |packs|) + ConfigBefores(own, |own|)
  }

  function Afters(packs: seq<Phase>, own: seq<ConfigHook>): seq<Event> {
    ConfigAfters(own, |own|) + PackAfters(packs, 0)
  }

  /** All that runs when nothing fails before the command. */
  function Plan(packs: seq<Phase>, own: seq<ConfigHook>): seq<Event> {
    Befores(packs, own) + [Command] + Afters(packs, own)
  }

  function FirstError(es: seq<Event>, world: World): Option<Error> {
    if es == [] then None else if world(es[0]).Some? then world(es[0]) else FirstError(es[1..], world)
  }

  /** What runs of some events when the first failure stops the rest. */
  function Until(es: seq<Event>, world: World): seq<Event> {
    if es == [] then [] else if world(es[0]).Some? then [es[0]] else [es[0]] + Until(es[1..], world)
  }

  // ----------------------------------------------------------- the answers

  /** How many of these answers are written, from after so many: all, or those before a write that fails. */
  function Writes(envs: seq<Envelope>, done: nat, writer: Writer): (n: nat)
    ensures n <= |envs|
  {
    if envs == [] || writer(done).Some? then 0 else 1 + Writes(envs[1..], done + 1, writer)
  }

  function WriteError(envs: seq<Envelope>, done: nat, writer: Writer): Option<Error> {
    var n := Writes(envs, done, writer);
    if n == |envs| then None else writer(done + n)
  }

  /** The answers, the last of them failed by a hook. */
  function Marked(envs: seq<Envelope>, failed: Error): (r: seq<Envelope>)
    requires envs != []
    ensures |r| == |envs|
  {
    var last := envs[|envs| - 1];
    envs[|envs| - 1 := Envelope(false, last.data, last.errors + [failed])]
  }

  // ------------------------------------------------------------------ a run

  datatype Run = Run(trace: seq<Event>, written: seq<Envelope>, ending: Ending)

  /** The command on its own: it stops at an answer that cannot be written. */
  function Bare(command: CommandRun, writer: Writer): (seq<Envelope>, Option<Error>) {
    var n, werr := Writes(command.answers, 0, writer), WriteError(command.answers, 0, writer);
    (command.answers[..n], if werr.Some? then werr else command.result)
  }

  function HasAfterHooks(packs: seq<Phase>, own: seq<ConfigHook>): bool {
    After in packs || exists h <- own :: h.after
  }

  /** release: writes what was held, and says what the command ends with. */
  function Released(written: seq<Envelope>, held: seq<Envelope>, err: Option<Error>, failed: Option<Error>,
                    writer: Writer): (seq<Envelope>, Ending) {
    if failed.Some? && held == [] then (written, Ended(failed))
    else
      var envs := if failed.Some? then Marked(held, failed.value) else held;
      var n, werr := Writes(envs, |written|, writer), WriteError(envs, |written|, writer);
      (written + envs[..n],
       if werr.Some? then Ended(werr) else if failed.Some? then Silent(failed.value) else Ended(err))
  }

  function RunOf(json: bool, setup: Setup, command: CommandRun, world: World, writer: Writer): Run {
    if setup.Misnamed? then Run([], [], Ended(Some(setup.err)))
    else if setup.Unreadable? || (setup.packs == [] && setup.own == []) then
      var bare := Bare(command, writer);
      Run([Command], bare.0, Ended(bare.1))
    else
      var before := Befores(setup.packs, setup.own);
      if FirstError(before, world).Some? then Run(Until(before, world), [], Ended(FirstError(before, world)))
      else
        var holding := json && HasAfterHooks(setup.packs, setup.own);
        var bare := if holding then ([], command.result) else Bare(command, writer);
        var failed := if bare.1.Some? then None else FirstError(Afters(setup.packs, setup.own), world);
        var end := Released(bare.0, if holding then command.answers else [], bare.1, failed, writer);
        Run(Plan(setup.packs, setup.own), end.0, end.1)
  }

  // ------------------------------------------------------- the order of hooks

  /**
   Which of two events comes first: the packs' before in order, axx.yaml's, the command, axx.yaml's, the packs'
   in reverse.
   */
  predicate Comes(e: Event, f: Event) {
    Rank(e) < Rank(f) || (Rank(e) == Rank(f) && Place(e) < Place(f))
  }

  function Rank(e: Event): nat {
    match e
    case PackBefore(_) => 0
    case ConfigBefore(_) => 1
    case Command => 2
    case ConfigAfter(_) => 3
    case PackAfter(_) => 4
  }

  function Place(e: Event): int {
    match e
    case PackBefore(i) => i
    case ConfigBefore(i) => i
    case Command => 0
    case ConfigAfter(i) => i
    case PackAfter(i) => 0 - i
  }

  predicate InOrder(es: seq<Event>) {
    forall i, j | 0 <= i < j < |es| :: Comes(es[i], es[j])
  }

  /** A hook that is there to run. */
  predicate Declared(packs: seq<Phase>, own: seq<ConfigHook>, e: Event) {
    match e
    case PackBefore(i) => i < |packs| && packs[i] == Before
    case ConfigBefore(i) => i < |own| && own[i].before
    case Command => true
    case ConfigAfter(i) => i < |own| && own[i].after
    case PackAfter(i) => i < |packs| && packs[i] == After
  }

  predicate Within(es: seq<Event>, rank: nat, from: int, to: int) {
    forall e <- es :: Rank(e) == rank && from <= Place(e) < to
  }

  lemma {:induction false} PackBeforesAre(packs: seq<Phase>, n: nat)
    requires n <= |packs|
    ensures var es := PackBefores(packs, n); InOrder(es) && Within(es, 0, 0, n)
    ensures forall i: nat | i < n && packs[i] == Before :: PackBefore(i) in PackBefores(packs, n)
    ensures forall e <- PackBefores(packs, n) :: Declared(packs, [], e)
  {
    if n > 0 { PackBeforesAre(packs, n - 1); }
  }

  lemma {:induction false} ConfigBeforesAre(own: seq<ConfigHook>, n: nat)
    requires n <= |own|
    ensures var es := ConfigBefores(own, n); InOrder(es) && Within(es, 1, 0, n)
    ensures forall i: nat | i < n && own[i].before :: ConfigBefore(i) in ConfigBefores(own, n)
    ensures forall e <- ConfigBefores(own, n) :: Declared([], own, e)
  {
    if n > 0 { ConfigBeforesAre(own, n - 1); }
  }

  lemma {:induction false} ConfigAftersAre(own: seq<ConfigHook>, n: nat)
    requires n <= |own|
    ensures var es := ConfigAfters(own, n); InOrder(es) && Within(es, 3, 0, n)
    ensures forall i: nat | i < n && own[i].after :: ConfigAfter(i) in ConfigAfters(own, n)
    ensures forall e <- ConfigAfters(own, n) :: Declared([], own, e)
  {
    if n > 0 { ConfigAftersAre(own, n - 1); }
  }

  lemma {:induction false} PackAftersAre(packs: seq<Phase>, n: nat)
    requires n <= |packs|
    ensures var es := PackAfters(packs, n); InOrder(es) && Within(es, 4, -|packs|, 1 - n)
    ensures forall i: nat | n <= i < |packs| && packs[i] == After :: PackAfter(i) in PackAfters(packs, n)
    ensures forall e <- PackAfters(packs, n) :: Declared(packs, [], e)
    decreases |packs| - n
  {
    if n < |packs| { PackAftersAre(packs, n + 1); }
  }

  /** In order, and of ranks in a range. */
  predicate Spans(es: seq<Event>, from: nat, to: nat) {
    InOrder(es) && forall e <- es :: from <= Rank(e) < to
  }

  lemma SpansConcat(a: seq<Event>, b: seq<Event>, from: nat, mid: nat, to: nat)
    requires from <= mid <= to && Spans(a, from, mid) && Spans(b, mid, to)
    ensures Spans(a + b, from, to)
  {
  }

  lemma BeforesSpan(packs: seq<Phase>, own: seq<ConfigHook>)
    ensures Spans(Befores(packs, own), 0, 2)
    ensures forall e :: e in Befores(packs, own) <==> Rank(e) < 2 && Declared(packs, own, e)
  {
    PackBeforesAre(packs, |packs|);
    ConfigBeforesAre(own, |own|);
    SpansConcat(PackBefores(packs, |packs|), ConfigBefores(own, |own|), 0, 1, 2);
  }

  lemma AftersSpan(packs: seq<Phase>, own: seq<ConfigHook>)
    ensures Spans(Afters(packs, own), 3, 5)
    ensures forall e :: e in Afters(packs, own) <==> Rank(e) > 2 && Declared(packs, own, e)
  {
    ConfigAftersAre(own, |own|);
    PackAftersAre(packs, 0);
    SpansConcat(ConfigAfters(own, |own|), PackAfters(packs, 0), 3, 4, 5);
  }

  /** The plan has the command and every hook declared, each once, and nothing else, in their order. */
  lemma PlanIsOrdered(packs: seq<Phase>, own: seq<ConfigHook>)
    ensures InOrder(Plan(packs, own))
    ensures forall e :: e in Plan(packs, own) <==> Declared(packs, own, e)
  {
    BeforesSpan(packs, own);
    AftersSpan(packs, own);
    SpansConcat(Befores(packs, own), [Command], 0, 2, 3);
    SpansConcat(Befores(packs, own) + [Command], Afters(packs, own), 0, 3, 5);
  }

  // -------------------------------------------------------------- every run

  lemma {:induction false} UntilFirst(es: seq<Event>, world: World)
    ensures Until(es, world) <= es
    ensures FirstError(es, world) == None <==> forall e <- es :: world(e) == None
    ensures FirstError(es, world) == None ==> Until(es, world) == es
    ensures FirstError(es, world).Some? ==>
      var ran := Until(es, world);
      ran != [] && world(ran[|ran| - 1]) == FirstError(es, world)
      && forall i | 0 <= i < |ran| - 1 :: world(ran[i]) == None
  {
    if es != [] {
      assert es == [es[0]] + es[1..];
      UntilFirst(es[1..], world);
    }
  }

  /** A hook before the command that fails is the last thing that runs, and what the run ends with. */
  lemma FailureBeforeStops(json: bool, packs: seq<Phase>, own: seq<ConfigHook>, command: CommandRun,
                           world: World, writer: Writer)
    requires exists e <- Befores(packs, own) :: world(e).Some?
    ensures var r := RunOf(json, Hooks(packs, own), command, world, writer);
      r.trace != [] && r.trace <= Befores(packs, own) && Command !in r.trace && r.written == []
      && r.ending == Ended(world(r.trace[|r.trace| - 1])) && r.ending.err.Some?
      && forall i | 0 <= i < |r.trace| - 1 :: world(r.trace[i]) == None
  {
    UntilFirst(Befores(packs, own), world);
    BeforesSpan(packs, own);
    assert packs != [] || own != [];
  }

  lemma {:induction false} WritesAll(envs: seq<Envelope>, done: nat, writer: Writer)
    requires forall k | done <= k < done + |envs| :: writer(k) == None
    ensures Writes(envs, done, writer) == |envs| && WriteError(envs, done, writer) == None
  {
    if envs != [] { WritesAll(envs[1..], done + 1, writer); }
  }

  function ErrorOf(e: Ending): Option<Error> {
    match e case Ended(err) => err case Silent(error) => Some(error)
  }

  /**
   Otherwise everything runs, as planned. Where writing does not fail, the run ends with the command's own
   error, or else the first hook's after it; every answer is written once, in order; and it is as the command
   gave it, but for the last of those held when a hook fails a command that succeeded.
   */
  lemma RunsAsPlanned(json: bool, packs: seq<Phase>, own: seq<ConfigHook>, command: CommandRun,
                      world: World, writer: Writer)
    requires forall e <- Befores(packs, own) :: world(e) == None
    requires forall k | 0 <= k < |command.answers| :: writer(k) == None
    ensures var r := RunOf(json, Hooks(packs, own), command, world, writer);
      var failed := FirstError(Afters(packs, own), world);
      r.trace == Plan(packs, own)
      && ErrorOf(r.ending) == (if command.result.Some? then command.result else failed)
      && r.written ==
        if json && HasAfterHooks(packs, own) && command.result == None && failed.Some? && command.answers != []
        then Marked(command.answers, failed.value)
        else command.answers
  {
    UntilFirst(Befores(packs, own), world);
    WritesAll(command.answers, 0, writer);
    if command.answers != [] {
      var failed := FirstError(Afters(packs, own), world);
      if failed.Some? { WritesAll(Marked(command.answers, failed.value), 0, writer); }
    }
  }

  /** What is written of a run whose writes fail is what there was before the one that did, and the run says so. */
  lemma {:induction false} WritesStop(envs: seq<Envelope>, done: nat, writer: Writer)
    ensures var n, err := Writes(envs, done, writer), WriteError(envs, done, writer);
      (forall k | done <= k < done + n :: writer(k) == None)
      && (err.Some? <==> n < |envs|) && (n < |envs| ==> err == writer(done + n))
  {
    if envs != [] && writer(done) == None { WritesStop(envs[1..], done + 1, writer); }
  }

  lemma {:induction false} WritesOfLength(a: seq<Envelope>, b: seq<Envelope>, done: nat, writer: Writer)
    requires |a| == |b|
    ensures Writes(a, done, writer) == Writes(b, done, writer)
    ensures WriteError(a, done, writer) == WriteError(b, done, writer)
  {
    if a != [] { WritesOfLength(a[1..], b[1..], done + 1, writer); }
  }

  /**
   When an answer cannot be written, everything runs all the same; those before it are written, as the command
   gave them, and the run ends with the failure to write, whatever the command or a hook after it ended with.
   */
  lemma FailedWriteEnds(json: bool, setup: Setup, command: CommandRun, world: World, writer: Writer)
    requires !setup.Misnamed? && (setup.Hooks? ==> forall e <- Befores(setup.packs, setup.own) :: world(e) == None)
    requires Writes(command.answers, 0, writer) < |command.answers|
    ensures var r, n := RunOf(json, setup, command, world, writer), Writes(command.answers, 0, writer);
      r.trace == (if setup.Hooks? then Plan(setup.packs, setup.own) else [Command])
      && r.written == command.answers[..n] && r.ending == Ended(writer(n)) && writer(n).Some?
  {
    WritesStop(command.answers, 0, writer);
    if setup.Hooks? {
      UntilFirst(Befores(setup.packs, setup.own), world);
      var failed, n := FirstError(Afters(setup.packs, setup.own), world), Writes(command.answers, 0, writer);
      assert [] + command.answers[..n] == command.answers[..n] && command.answers[..n] + [] == command.answers[..n];
      if failed.Some? {
        WritesOfLength(command.answers, Marked(command.answers, failed.value), 0, writer);
        assert Marked(command.answers, failed.value)[..n] == command.answers[..n];
      }
    }
  }

  // ---------------------------------------------------------------- methods

  lemma {:induction false} FirstErrorMore(es: seq<Event>, e: Event, world: World)
    ensures FirstError(es + [e], world) == if FirstError(es, world).Some? then FirstError(es, world) else world(e)
  {
    if es == [] {
      assert [e][1..] == [] && es + [e] == [e];
    } else {
      assert (es + [e])[1..] == es[1..] + [e];
      FirstErrorMore(es[1..], e, world);
    }
  }

  /** Events that ran well, and one that failed, are those that run of any they start. */
  lemma {:induction false} UntilPrefix(ran: seq<Event>, e: Event, es: seq<Event>, world: World)
    requires ran + [e] <= es && FirstError(ran, world) == None && world(e).Some?
    ensures Until(es, world) == ran + [e] && FirstError(es, world) == world(e)
  {
    assert (ran + [e])[0] == es[0];
    if ran != [] {
      assert (ran + [e])[1..] == ran[1..] + [e];
      assert es[1..][..|ran|] == es[..|ran| + 1][1..];
      UntilPrefix(ran[1..], e, es[1..], world);
      assert [ran[0]] + (ran[1..] + [e]) == ran + [e];
    }
  }

  lemma {:induction false} PackBeforesStart(packs: seq<Phase>, i: nat, n: nat)
    requires i <= n <= |packs|
    ensures PackBefores(packs, i) <= PackBefores(packs, n)
  {
    if i < n { PackBeforesStart(packs, i, n - 1); }
  }

  lemma {:induction false} ConfigBeforesStart(own: seq<ConfigHook>, i: nat, n: nat)
    requires i <= n <= |own|
    ensures ConfigBefores(own, i) <= ConfigBefores(own, n)
  {
    if i < n { ConfigBeforesStart(own, i, n - 1); }
  }

  lemma StartOf<T>(a: seq<T>, b: seq<T>, c: seq<T>)
    requires b <= c
    ensures a + b <= a + c && b <= c + a
  {
  }

  class App {
    const json: bool
    const world: World
    const writer: Writer
    var trace: seq<Event>
    var written: seq<Envelope>
    var holding: bool
    var held: seq<Envelope>

    constructor (json: bool, world: World, writer: Writer)
      ensures Fresh() && this.json == json && this.world == world && this.writer == writer
    {
      this.json, this.world, this.writer := json, world, writer;
      trace, written, holding, held := [], [], false, [];
    }

    /** Before a command. */
    ghost predicate Fresh()
      reads this
    {
      trace == [] && written == [] && !holding && held == []
    }

    method RunEvent(e: Event) returns (err: Option<Error>)
      modifies this`trace
      ensures trace == old(trace) + [e] && err == world(e)
    {
      trace := trace + [e];
      err := world(e);
    }

    method WriteEnvelope(env: Envelope) returns (err: Option<Error>)
      modifies this`held, this`written
      ensures holding ==> err == None && held == old(held) + [env] && written == old(written)
      ensures !holding ==> err == writer(|old(written)|) && held == old(held)
      ensures !holding ==> written == if err == None then old(written) + [env] else old(written)
    {
      if holding {
        held := held + [env];
        return None;
      }
      err := writer(|written|);
      if err == None { written := written + [env]; }
    }

    /** Writes answers until one cannot be. */
    method WriteEach(envs: seq<Envelope>) returns (err: Option<Error>)
      modifies this`held, this`written
      ensures holding ==> err == None && held == old(held) + envs && written == old(written)
      ensures !holding ==> held == old(held) && err == WriteError(envs, |old(written)|, writer)
      ensures !holding ==> written == old(written) + envs[..Writes(envs, |old(written)|, writer)]
    {
      var i := 0;
      assert envs[0..] == envs;
      while i < |envs|
        invariant 0 <= i <= |envs|
        invariant holding ==> held == old(held) + envs[..i] && written == old(written)
        invariant !holding ==> held == old(held) && written == old(written) + envs[..i]
        invariant !holding ==> Writes(envs, |old(written)|, writer) == i + Writes(envs[i..], |old(written)| + i, writer)
      {
        assert envs[i..][1..] == envs[i + 1..];
        err := WriteEnvelope(envs[i]);
        if err.Some? { return; }
        i := i + 1;
      }
      assert envs[..|envs|] == envs;
      err := None;
    }

    /** The command: it stops at an answer that cannot be written. */
    method RunCommand(command: CommandRun) returns (err: Option<Error>)
      modifies this`trace, this`held, this`written
      ensures trace == old(trace) + [Command]
      ensures holding ==> err == command.result && held == old(held) + command.answers && written == old(written)
      ensures !holding && old(written) == [] ==> held == old(held) && (written, err) == Bare(command, writer)
    {
      trace := trace + [Command];
      err := WriteEach(command.answers);
      assert forall n: nat | n <= |command.answers| :: [] + command.answers[..n] == command.answers[..n];
      if err == None { err := command.result; }
    }

    /** The hooks before a command, up to the first that fails. */
    method RunBefores(packs: seq<Phase>, own: seq<ConfigHook>) returns (err: Option<Error>)
      requires trace == []
      modifies this`trace
      ensures err == FirstError(Befores(packs, own), world) && trace == Until(Befores(packs, own), world)
    {
      ghost var all, ps := Befores(packs, own), PackBefores(packs, |packs|);
      for i := 0 to |packs|
        invariant trace == PackBefores(packs, i) && FirstError(trace, world) == None
      {
        if packs[i] == Before {
          PackBeforesStart(packs, i + 1, |packs|);
          StartOf(ConfigBefores(own, |own|), PackBefores(packs, i + 1), ps);
          ghost var ran := trace;
          err := RunEvent(PackBefore(i));
          FirstErrorMore(ran, PackBefore(i), world);
          if err.Some? {
            UntilPrefix(ran, PackBefore(i), all, world);
            return;
          }
        }
      }
      for i := 0 to |own|
        invariant trace == ps + ConfigBefores(own, i) && FirstError(trace, world) == None
      {
        if own[i].before {
          ConfigBeforesStart(own, i + 1, |own|);
          StartOf(ps, ConfigBefores(own, i + 1), ConfigBefores(own, |own|));
          ghost var ran := trace;
          err := RunEvent(ConfigBefore(i));
          FirstErrorMore(ran, ConfigBefore(i), world);
          assert ran + [ConfigBefore(i)] == ps + ConfigBefores(own, i + 1);
          if err.Some? {
            UntilPrefix(ran, ConfigBefore(i), all, world);
            return;
          }
        }
      }
      UntilFirst(all, world);
      err := None;
    }

    /** A hook after a command; its failure is kept when there is none yet, the command's included. */
    method RunAfter(e: Event, err: Option<Error>, failed: Option<Error>) returns (f: Option<Error>)
      modifies this`trace
      ensures trace == old(trace) + [e] && f == if err == None && failed == None then world(e) else failed
    {
      f := failed;
      var herr := RunEvent(e);
      if herr.Some? && err == None && failed == None { f := herr; }
    }

    method RunConfigAfters(own: seq<ConfigHook>, err: Option<Error>) returns (failed: Option<Error>)
      modifies this`trace
      ensures trace == old(trace) + ConfigAfters(own, |own|)
      ensures failed == if err.Some? then None else FirstError(ConfigAfters(own, |own|), world)
    {
      failed := None;
      for i := 0 to |own|
        invariant trace == old(trace) + ConfigAfters(own, i)
        invariant failed == if err.Some? then None else FirstError(ConfigAfters(own, i), world)
      {
        ghost var ran := ConfigAfters(own, i);
        if own[i].after {
          FirstErrorMore(ran, ConfigAfter(i), world);
          failed := RunAfter(ConfigAfter(i), err, failed);
        } else {
          assert ConfigAfters(own, i + 1) == ran + [] == ran;
        }
      }
    }

    /** The hooks after a command, all of them; the first's failure, when the command had none. */
    method RunAfters(packs: seq<Phase>, own: seq<ConfigHook>, err: Option<Error>) returns (failed: Option<Error>)
      modifies this`trace
      ensures trace == old(trace) + Afters(packs, own)
      ensures failed == if err.Some? then None else FirstError(Afters(packs, own), world)
    {
      ghost var cs := ConfigAfters(own, |own|);
      failed := RunConfigAfters(own, err);
      var i := |packs|;
      assert cs + PackAfters(packs, |packs|) == cs;
      while i > 0
        invariant 0 <= i <= |packs|
        invariant trace == old(trace) + (cs + PackAfters(packs, i))
        invariant failed == if err.Some? then None else FirstError(cs + PackAfters(packs, i), world)
      {
        i := i - 1;
        ghost var ran := cs + PackAfters(packs, i + 1);
        if packs[i] == After {
          FirstErrorMore(ran, PackAfter(i), world);
          assert cs + PackAfters(packs, i) == ran + [PackAfter(i)];
          failed := RunAfter(PackAfter(i), err, failed);
        } else {
          assert PackAfters(packs, i) == PackAfters(packs, i + 1) + [] == PackAfters(packs, i + 1);
        }
      }
    }

    /** release: writes the answers held, the last of them failed when a hook did. */
    method Release(err: Option<Error>, failed: Option<Error>) returns (ending: Ending)
      requires !holding
      modifies this`held, this`written
      ensures held == []
      ensures (written, ending) == Released(old(written), old(held), err, failed, writer)
    {
      var envs := held;
      held := [];
      if failed == None {
        var werr := WriteEach(envs);
        return if werr.Some? then Ended(werr) else Ended(err);
      }
      if |envs| == 0 { return Ended(failed); }
      var last := envs[|envs| - 1];
      envs := envs[|envs| - 1 := Envelope(false, last.data, last.errors + [failed.value])];
      var werr := WriteEach(envs);
      ending := if werr.Some? then Ended(werr) else Silent(failed.value);
    }

    /** The command between its hooks. */
    method RunWrapped(setup: Setup, command: CommandRun) returns (ending: Ending)
      requires Fresh()
      modifies this
      ensures Run(trace, written, ending) == RunOf(json, setup, command, world, writer)
      ensures !holding && held == []
    {
      if setup.Misnamed? { return Ended(Some(setup.err)); }
      if setup.Unreadable? || (|setup.packs| == 0 && |setup.own| == 0) {
        var err := RunCommand(command);
        return Ended(err);
      }
      ending := RunHooked(setup.packs, setup.own, command);
    }

    method RunHooked(packs: seq<Phase>, own: seq<ConfigHook>, command: CommandRun) returns (ending: Ending)
      requires Fresh() && (packs != [] || own != [])
      modifies this
      ensures Run(trace, written, ending) == RunOf(json, Hooks(packs, own), command, world, writer)
      ensures !holding && held == []
    {
      var err := RunBefores(packs, own);
      if err.Some? { return Ended(err); }
      UntilFirst(Befores(packs, own), world);
      holding := json && HasAfterHooks(packs, own);
      err := RunCommand(command);
      assert [] + command.answers == command.answers;
      holding := false;
      assert trace == Befores(packs, own) + [Command];
      var failed := RunAfters(packs, own, err);
      ending := Release(err, failed);
    }
  }
}
