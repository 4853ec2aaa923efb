/** The hostapd daemon as seen through its control socket, and sequences of commands sent to it. */
module Daemon {
  import opened Sequences

  datatype Command = Set(name: string, value: string) | Reload
  datatype Setting = Setting(name: string, value: string)

  /** Which of the commands it is sent the daemon accepts, by number; arbitrary. */
  type Verdicts = iset<nat>

  /** A configuration is the list of the settings that made it: whatever the daemon derives from them is
      determined by it. An accepted SET changes the staged configuration, an accepted RELOAD makes it the
      active one, and a rejected command changes nothing. */
  datatype Daemon = Daemon(
    sent: seq<Command>,
    accepted: seq<Command>,
    staged: seq<Setting>,
    active: seq<Setting>)

  function SettingOf(c: Command): seq<Setting> {
    if c.Set? then [Setting(c.name, c.value)] else []
  }

  function Exec(v: Verdicts, d: Daemon, c: Command): Daemon {
    var answered := d.(sent := d.sent + [c]);
    if |d.sent| !in v then answered
    else
      var done := answered.(accepted := d.accepted + [c]);
      if c.Reload? then done.(active := d.staged) else done.(staged := d.staged + SettingOf(c))
  }

  /** A step of an operation: send a command, which throws when it is rejected, or throw right away. */
  datatype Action = Send(command: Command) | Throw

  /** The operation that takes the steps of `plan` in order until one throws; false when one did. */
  function Perform(v: Verdicts, d: Daemon, plan: seq<Action>): (Daemon, bool)
    decreases |plan|
  {
    if plan == [] then (d, true)
    else
      match plan[0]
      case Throw => (d, false)
      case Send(c) =>
        if |d.sent| in v then Perform(v, Exec(v, d, c), plan[1..]) else (Exec(v, d, c), false)
  }

  lemma {:induction false} PerformAppend(v: Verdicts, d: Daemon, a: seq<Action>, b: seq<Action>)
    ensures Perform(v, d, a + b)
         == if Perform(v, d, a).1 then Perform(v, Perform(v, d, a).0, b) else Perform(v, d, a)
    decreases |a|
  {
    if a == [] {
      assert a + b == b;
    } else {
      assert (a + b)[0] == a[0] && (a + b)[1..] == a[1..] + b;
      if a[0].Send? {
        PerformAppend(v, Exec(v, d, a[0].command), a[1..], b);
      }
    }
  }

  function CommandOf(a: Action): seq<Command> { if a.Send? then [a.command] else [] }

  function Commands(plan: seq<Action>): seq<Command> {
    if plan == [] then [] else CommandOf(plan[0]) + Commands(plan[1..])
  }

  /** The settings that a list of commands makes. */
  function Settings(commands: seq<Command>): seq<Setting> {
    if commands == [] then []
    else
      SettingOf(commands[0]) + Settings(commands[1..])
  }

  /** A plan that changes settings and reloads once, at the very end. */
  predicate IsTransaction(plan: seq<Action>) {
    && plan != [] && plan[|plan| - 1] == Send(Reload)
    && forall i :: 0 <= i < |plan| - 1 ==> plan[i] != Send(Reload)
  }

  /** Every step of the plan is a command that the daemon accepts. */
  ghost predicate AllAccepted(v: Verdicts, sent: nat, plan: seq<Action>) {
    forall i :: 0 <= i < |plan| ==> plan[i].Send? && sent + i in v
  }

  /** The daemon accepts the `count` commands that follow the first `sent`. */
  ghost predicate AcceptsNext(v: Verdicts, sent: nat, count: nat) {
    forall n :: sent <= n < sent + count ==> n in v
  }

  /** How many steps of the plan are taken before the first one that throws. */
  function Progress(v: Verdicts, sent: nat, plan: seq<Action>): (k: nat)
    ensures k <= |plan|
    decreases |plan|
  {
    if plan == [] || plan[0].Throw? || sent !in v then 0 else 1 + Progress(v, sent + 1, plan[1..])
  }

  /** Progress stops at the first step that is not an accepted command. */
  lemma {:induction false} ProgressStops(v: Verdicts, sent: nat, plan: seq<Action>)
    ensures var k := Progress(v, sent, plan);
            && AllAccepted(v, sent, plan[..k])
            && (k < |plan| ==> plan[k].Throw? || sent + k !in v)
    decreases |plan|
  {
    var k := Progress(v, sent, plan);
    if k > 0 {
      ProgressStops(v, sent + 1, plan[1..]);
      forall i | 0 <= i < k
        ensures plan[..k][i].Send? && sent + i in v
      {
        if i > 0 {
          assert plan[1..][..k - 1][i - 1].Send? && sent + 1 + (i - 1) in v;
        }
      }
    }
  }

  lemma CommandsCons(plan: seq<Action>, k: nat)
    requires 0 < k <= |plan| && plan[0].Send?
    ensures Commands(plan[..k]) == [plan[0].command] + Commands(plan[1..][..k - 1])
  {
    assert plan[..k][1..] == plan[1..][..k - 1];
  }

  lemma SettingsCons(c: Command, rest: seq<Command>)
    ensures Settings([c] + rest) == SettingOf(c) + Settings(rest)
  {
  }

  /** However the daemon answers: the commands it accepts are a prefix of the plan, and the operation succeeds
      exactly when that prefix is the whole plan. */
  lemma {:induction false} AcceptedIsPrefix(v: Verdicts, d: Daemon, plan: seq<Action>)
    ensures Perform(v, d, plan).0.accepted
         == d.accepted + Commands(plan[..Progress(v, |d.sent|, plan)])
    ensures Perform(v, d, plan).1 <==> Progress(v, |d.sent|, plan) == |plan|
    decreases |plan|
  {
    var k := Progress(v, |d.sent|, plan);
    if k > 0 {
      var d' := Exec(v, d, plan[0].command);
      AcceptedIsPrefix(v, d', plan[1..]);
      CommandsCons(plan, k);
      assert Perform(v, d, plan) == Perform(v, d', plan[1..]);
    }
  }

  /** The settings of the accepted commands, and nothing else, are staged. */
  lemma {:induction false} StagedIsAccepted(v: Verdicts, d: Daemon, plan: seq<Action>)
    ensures Perform(v, d, plan).0.staged
         == d.staged + Settings(Commands(plan[..Progress(v, |d.sent|, plan)]))
    decreases |plan|
  {
    var k := Progress(v, |d.sent|, plan);
    if k > 0 {
      var d' := Exec(v, d, plan[0].command);
      StagedIsAccepted(v, d', plan[1..]);
      assert Progress(v, |d'.sent|, plan[1..]) == k - 1;
      SettingsOfPrefix(plan, k);
      Associate(d.staged, SettingOf(plan[0].command), Settings(Commands(plan[1..][..k - 1])));
    }
  }

  lemma SettingsOfPrefix(plan: seq<Action>, k: nat)
    requires 0 < k <= |plan| && plan[0].Send?
    ensures Settings(Commands(plan[..k])) == SettingOf(plan[0].command) + Settings(Commands(plan[1..][..k - 1]))
  {
    CommandsCons(plan, k);
    SettingsCons(plan[0].command, Commands(plan[1..][..k - 1]));
  }

  /** Without an accepted RELOAD the active configuration does not move. */
  lemma {:induction false} ActiveNeedsReload(v: Verdicts, d: Daemon, plan: seq<Action>)
    requires forall i :: 0 <= i < |plan| ==> plan[i] != Send(Reload)
    ensures Perform(v, d, plan).0.active == d.active
    decreases |plan|
  {
    if plan != [] && plan[0].Send? {
      ActiveNeedsReload(v, Exec(v, d, plan[0].command), plan[1..]);
    }
  }

  /** Transactions are safe under any pattern of rejected commands: success means that the whole plan was
      accepted and all its settings are active; after a failure the active configuration is what it was. */
  lemma TransactionSafety(v: Verdicts, d: Daemon, plan: seq<Action>)
    requires IsTransaction(plan)
    ensures Perform(v, d, plan).1 <==> AllAccepted(v, |d.sent|, plan)
    ensures !Perform(v, d, plan).1 ==> Perform(v, d, plan).0.active == d.active
    ensures Perform(v, d, plan).1 ==>
              && Perform(v, d, plan).0.active == Perform(v, d, plan).0.staged
              && Perform(v, d, plan).0.staged == d.staged + Settings(Commands(plan))
  {
    var n := |plan| - 1;
    var (d', ok) := Perform(v, d, plan[..n]);
    assert plan == plan[..n] + [Send(Reload)];
    PerformAppend(v, d, plan[..n], [Send(Reload)]);
    assert Perform(v, d', [Send(Reload)]).0 == Exec(v, d', Reload);
    ActiveNeedsReload(v, d, plan[..n]);
    SucceedsExactly(v, d, plan);
  }

  /** Any plan succeeds exactly when every step is an accepted command, and then all its settings are staged. */
  lemma SucceedsExactly(v: Verdicts, d: Daemon, plan: seq<Action>)
    ensures Perform(v, d, plan).1 <==> AllAccepted(v, |d.sent|, plan)
    ensures Perform(v, d, plan).1 ==> Perform(v, d, plan).0.staged == d.staged + Settings(Commands(plan))
  {
    AcceptedIsPrefix(v, d, plan);
    StagedIsAccepted(v, d, plan);
    ProgressStops(v, |d.sent|, plan);
    var k := Progress(v, |d.sent|, plan);
    if k == |plan| {
      assert plan[..k] == plan;
    } else {
      assert !(plan[k].Send? && |d.sent| + k in v);
    }
  }

  /** Nothing is rolled back: whatever an operation had staged before it failed stays staged, and becomes active
      together with the settings of the next operation that succeeds and ends by reloading. */
  lemma LeftoversActivateLater(v: Verdicts, d: Daemon, failed: seq<Action>, next: seq<Action>)
    requires !Perform(v, d, failed).1 && Perform(v, Perform(v, d, failed).0, next).1
    requires next != [] && next[|next| - 1] == Send(Reload)
    ensures Perform(v, Perform(v, d, failed).0, next).0.active
         == d.staged + Settings(Commands(failed[..Progress(v, |d.sent|, failed)])) + Settings(Commands(next))
  {
    var d', n := Perform(v, d, failed).0, |next| - 1;
    StagedIsAccepted(v, d, failed);
    StagedIsAccepted(v, d', next);
    AcceptedIsPrefix(v, d', next);
    assert next[..|next|] == next && next == next[..n] + [Send(Reload)];
    PerformAppend(v, d', next[..n], [Send(Reload)]);
    var before := Perform(v, d', next[..n]).0;
    assert Perform(v, before, [Send(Reload)]).0 == Exec(v, before, Reload);
  }

  /** An operation that starts with a SET, as those of Hostapd do that do not throw at once, leaves nothing staged
      exactly when that first command is rejected. */
  lemma NothingLeftOver(v: Verdicts, d: Daemon, plan: seq<Action>)
    requires plan != [] && plan[0].Send? && plan[0].command.Set?
    ensures Perform(v, d, plan).0.staged == d.staged <==> |d.sent| !in v
  {
    StagedIsAccepted(v, d, plan);
    var k := Progress(v, |d.sent|, plan);
    if k > 0 {
      SettingsOfPrefix(plan, k);
    }
  }

  /** The configuration that is in force after a list of accepted commands: the settings before the last
      reload. */
  function InForce(commands: seq<Command>): seq<Setting> {
    if commands == [] then []
    else
      var n := |commands| - 1;
      if commands[n].Reload? then Settings(commands[..n]) else InForce(commands[..n])
  }

  ghost predicate Consistent(d: Daemon) {
    d.staged == Settings(d.accepted) && d.active == InForce(d.accepted)
  }

  lemma {:induction false} SettingsAppend(a: seq<Command>, b: seq<Command>)
    ensures Settings(a + b) == Settings(a) + Settings(b)
  {
    if a == [] {
      assert a + b == b;
    } else {
      assert (a + b)[1..] == a[1..] + b;
      SettingsAppend(a[1..], b);
    }
  }

  /** Every operation keeps this: staged holds the accepted settings, active those before the last accepted
      RELOAD, so the active configuration is an earlier staged one. */
  lemma {:induction false} ConsistentAlways(v: Verdicts, d: Daemon, plan: seq<Action>)
    requires Consistent(d)
    ensures Consistent(Perform(v, d, plan).0)
    ensures Perform(v, d, plan).0.active <= Perform(v, d, plan).0.staged
    decreases |plan|
  {
    InForceIsPrefix(d.accepted);
    if plan != [] && plan[0].Send? {
      var c := plan[0].command;
      var d' := Exec(v, d, c);
      if |d.sent| in v {
        assert d'.accepted[..|d.accepted|] == d.accepted;
        SettingsAppend(d.accepted, [c]);
        ConsistentAlways(v, d', plan[1..]);
      }
    }
  }

  lemma {:induction false} InForceIsPrefix(commands: seq<Command>)
    ensures InForce(commands) <= Settings(commands)
  {
    if commands != [] {
      var n := |commands| - 1;
      InForceIsPrefix(commands[..n]);
      SettingsAppend(commands[..n], commands[n..]);
      assert commands == commands[..n] + commands[n..];
    }
  }

  const NEW_DAEMON := Daemon([], [], [], [])

  /** The daemon after some operations, whether they succeeded or not. */
  function PerformAll(v: Verdicts, d: Daemon, plans: seq<seq<Action>>): Daemon {
    if plans == [] then d
    else Perform(v, PerformAll(v, d, plans[..|plans| - 1]), plans[|plans| - 1]).0
  }

  /** So after any sequence of operations, with any commands rejected. */
  lemma {:induction false} ReachableDaemons(v: Verdicts, plans: seq<seq<Action>>)
    ensures var d := PerformAll(v, NEW_DAEMON, plans);
            && d.staged == Settings(d.accepted)
            && d.active == InForce(d.accepted)
            && d.active <= d.staged
  {
    if plans != [] {
      var n := |plans| - 1;
      ReachableDaemons(v, plans[..n]);
      ConsistentAlways(v, PerformAll(v, NEW_DAEMON, plans[..n]), plans[n]);
    }
  }
}
