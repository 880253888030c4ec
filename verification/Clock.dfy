// The simulated clock of TimeReference.cpp. Commands from other threads reach
// the worker at two points of a tick: before the loop test, and during the
// sleep between the ping and the advance.
module Clock {
  import opened KpiWindows
  import opened Replay
  import opened Seqs
  import opened Simulation
  import opened Backlog

  datatype Command = Stop | Pause(val: bool) | SetSpeed(speed: nat)

  datatype Control = Control(doRun: bool, pause: bool, speed: nat)

  datatype Commands = Commands(early: seq<Command>, late: seq<Command>)

  function Apply(ctl: Control, cmd: Command): Control {
    match cmd
    case Stop => ctl.(doRun := false)
    case Pause(val) => ctl.(pause := val)
    case SetSpeed(speed) => ctl.(speed := speed)
  }

  function ApplyAll(ctl: Control, cmds: seq<Command>): Control
    decreases |cmds|
  {
    if cmds == [] then ctl else ApplyAll(Apply(ctl, cmds[0]), cmds[1..])
  }

  // What one tick saw: the pause flag at its two tests and the speed at the second.
  datatype Tick = Tick(pausedAtPing: bool, pausedAtAdvance: bool, speed: nat)

  // The ticks the worker goes through while it runs.
  ghost function Ticks(ctl: Control, env: seq<Commands>): seq<Tick>
    decreases |env|
  {
    if env == [] then [] else
      var first := ApplyAll(ctl, env[0].early);
      if !first.doRun then [] else
        var second := ApplyAll(first, env[0].late);
        [Tick(first.pause, second.pause, second.speed)] + Ticks(second, env[1..])
  }

  // Start time plus the speeds of the ticks that were not paused at the advance.
  ghost function SimTime(start: int, ticks: seq<Tick>): int {
    if ticks == [] then start else
      var n := |ticks| - 1;
      SimTime(start, ticks[..n]) + if ticks[n].pausedAtAdvance then 0 else ticks[n].speed
  }

  // The times of the pings: one for every tick not paused at its first test.
  ghost function PingTimes(start: int, ticks: seq<Tick>): seq<int> {
    if ticks == [] then [] else
      var n := |ticks| - 1;
      PingTimes(start, ticks[..n])
      + if ticks[n].pausedAtPing then [] else [SimTime(start, ticks[..n])]
  }

  class TimeReference {
    var ctl: Control
    var simTime: int

    // The previous worker has been joined when the new one starts.
    method Start()
      modifies this`ctl
      ensures ctl == old(ctl).(doRun := true, pause := false)
    {
      ctl := ctl.(doRun := false);
      ctl := ctl.(pause := false);
      ctl := ctl.(doRun := true);
    }

    method Receive(cmds: seq<Command>)
      modifies this`ctl
      ensures ctl == ApplyAll(old(ctl), cmds)
    {
      for i := 0 to |cmds|
        invariant ApplyAll(ctl, cmds[i..]) == ApplyAll(old(ctl), cmds)
      {
        ctl := Apply(ctl, cmds[i]);
      }
    }

    // The worker up to the end of env, or until it is stopped. A stop during
    // the sleep still lets the tick advance.
    method WorkerTask(start: int, env: seq<Commands>) returns (pings: seq<int>)
      modifies this
      ensures pings == PingTimes(start, Ticks(old(ctl), env))
      ensures simTime == SimTime(start, Ticks(old(ctl), env))
    {
      pings := [];
      simTime := start;
      ghost var done: seq<Tick> := [];
      ghost var initial := ctl;
      var i := 0;
      while i < |env|
        invariant 0 <= i <= |env|
        invariant simTime == SimTime(start, done)
        invariant pings == PingTimes(start, done)
        invariant done + Ticks(ctl, env[i..]) == Ticks(initial, env)
      {
        ghost var rest := Ticks(ctl, env[i..]);
        Receive(env[i].early);
        if !ctl.doRun {
          assert done == done + rest;
          return;
        }
        var tick := Tick(ctl.pause, ctl.pause, ctl.speed);
        if !ctl.pause {
          pings := pings + [simTime];
        }
        Receive(env[i].late);
        tick := tick.(pausedAtAdvance := ctl.pause, speed := ctl.speed);
        if !ctl.pause {
          simTime := simTime + ctl.speed;
        }
        assert (done + [tick])[..|done|] == done;
        assert env[i..][1..] == env[i + 1..];
        assert rest == [tick] + Ticks(ctl, env[i + 1..]);
        Associative(done, [tick], Ticks(ctl, env[i + 1..]));
        done := done + [tick];
        i := i + 1;
      }
      assert done == done + Ticks(ctl, env[i..]);
    }
  }

  // ---------------------------------------------------------------------
  // What commands do
  // ---------------------------------------------------------------------

  lemma {:induction false} ApplyConcat(ctl: Control, a: seq<Command>, b: seq<Command>)
    ensures ApplyAll(ctl, a + b) == ApplyAll(ApplyAll(ctl, a), b)
    decreases |a|
  {
    if a == [] {
      assert a + b == b;
    } else {
      assert (a + b)[1..] == a[1..] + b;
      ApplyConcat(Apply(ctl, a[0]), a[1..], b);
    }
  }

  // A setting that no command changes stays as it was.
  lemma {:induction false} Unchanged(ctl: Control, cmds: seq<Command>)
    ensures (forall i | 0 <= i < |cmds| :: !cmds[i].SetSpeed?) ==> ApplyAll(ctl, cmds).speed == ctl.speed
    ensures (forall i | 0 <= i < |cmds| :: !cmds[i].Pause?) ==> ApplyAll(ctl, cmds).pause == ctl.pause
    ensures ApplyAll(ctl, cmds).doRun <==> ctl.doRun && Stop !in cmds
    decreases |cmds|
  {
    if cmds != [] {
      Unchanged(Apply(ctl, cmds[0]), cmds[1..]);
      assert forall i | 0 <= i < |cmds[1..]| :: cmds[1..][i] == cmds[i + 1];
      assert Stop in cmds <==> cmds[0] == Stop || Stop in cmds[1..] by {
        assert cmds == [cmds[0]] + cmds[1..];
      }
    }
  }

  // The last command for a setting decides it.
  lemma LastSet(ctl: Control, a: seq<Command>, cmd: Command, b: seq<Command>)
    ensures cmd.SetSpeed? && (forall i | 0 <= i < |b| :: !b[i].SetSpeed?)
        ==> ApplyAll(ctl, a + [cmd] + b).speed == cmd.speed
    ensures cmd.Pause? && (forall i | 0 <= i < |b| :: !b[i].Pause?)
        ==> ApplyAll(ctl, a + [cmd] + b).pause == cmd.val
  {
    ApplyConcat(ctl, a + [cmd], b);
    ApplyConcat(ctl, a, [cmd]);
    Unchanged(ApplyAll(ctl, a + [cmd]), b);
  }

  // All commands received before tick k, and before its loop test, in order.
  ghost function Before(env: seq<Commands>, k: nat): seq<Command>
    requires k <= |env|
  {
    if k == 0 then [] else Before(env, k - 1) + env[k - 1].early + env[k - 1].late
  }

  ghost function BeforeTest(env: seq<Commands>, k: nat): seq<Command>
    requires k < |env|
  {
    Before(env, k) + env[k].early
  }

  lemma {:induction false} BeforeRest(env: seq<Commands>, k: nat)
    requires 0 < k <= |env|
    ensures Before(env, k) == env[0].early + env[0].late + Before(env[1..], k - 1)
  {
    if k > 1 {
      BeforeRest(env, k - 1);
      assert env[1..][k - 2] == env[k - 1];
    }
  }

  // The pause flag and the speed after these commands.
  ghost predicate SeenBy(ctl: Control, env: seq<Commands>, k: nat, tick: Tick)
    requires k < |env|
  {
    && tick.pausedAtPing == ApplyAll(ctl, BeforeTest(env, k)).pause
    && tick.pausedAtAdvance == ApplyAll(ctl, Before(env, k + 1)).pause
    && tick.speed == ApplyAll(ctl, Before(env, k + 1)).speed
  }

  // The first tick, and where the rest begins.
  lemma FirstTick(ctl: Control, env: seq<Commands>) returns (tick: Tick, second: Control)
    requires ctl.doRun && env != [] && Stop !in env[0].early
    ensures second == ApplyAll(ApplyAll(ctl, env[0].early), env[0].late)
    ensures second.doRun <==> Stop !in env[0].late
    ensures Ticks(ctl, env) == [tick] + Ticks(second, env[1..])
    ensures SeenBy(ctl, env, 0, tick)
  {
    var first := ApplyAll(ctl, env[0].early);
    second := ApplyAll(first, env[0].late);
    tick := Tick(first.pause, second.pause, second.speed);
    Unchanged(ctl, env[0].early);
    Unchanged(first, env[0].late);
    hide ApplyAll;
    assert Before(env, 0) == [];
    assert BeforeTest(env, 0) == env[0].early;
    assert Before(env, 1) == env[0].early + env[0].late;
    ApplyConcat(ctl, env[0].early, env[0].late);
  }

  lemma StopsAtOnce(ctl: Control, env: seq<Commands>)
    requires !ctl.doRun
    ensures Ticks(ctl, env) == []
  {
    if env != [] {
      Unchanged(ctl, env[0].early);
    }
  }

  // Tick k of the rest is tick k + 1 of the whole.
  lemma SeenLater(ctl: Control, env: seq<Commands>, k: nat, tick: Tick)
    requires env != [] && k + 1 < |env|
    ensures var second := ApplyAll(ApplyAll(ctl, env[0].early), env[0].late);
      && (SeenBy(second, env[1..], k, tick) ==> SeenBy(ctl, env, k + 1, tick))
      && (Stop in BeforeTest(env, k + 1)
          <==> Stop in env[0].early || Stop in env[0].late || Stop in BeforeTest(env[1..], k))
  {
    var first := env[0].early + env[0].late;
    ApplyConcat(ctl, env[0].early, env[0].late);
    BeforeRest(env, k + 1);
    BeforeRest(env, k + 2);
    assert BeforeTest(env, k + 1) == first + BeforeTest(env[1..], k);
    ApplyConcat(ctl, first, BeforeTest(env[1..], k));
    ApplyConcat(ctl, first, Before(env[1..], k + 1));
  }

  ghost predicate TicksSeen(ctl: Control, env: seq<Commands>, ticks: seq<Tick>) {
    && |ticks| <= |env|
    && (forall k | 0 <= k < |ticks| :: Stop !in BeforeTest(env, k) && SeenBy(ctl, env, k, ticks[k]))
    && (|ticks| < |env| ==> Stop in BeforeTest(env, |ticks|))
  }

  // A tick sees the settings after all commands received up to each of its two
  // tests; the ticks go on until the first loop test after a stop.
  lemma {:induction false} TicksSee(ctl: Control, env: seq<Commands>)
    requires ctl.doRun
    ensures TicksSeen(ctl, env, Ticks(ctl, env))
    decreases |env|
  {
    if env == [] {
    } else if Stop in env[0].early {
      Unchanged(ctl, env[0].early);
      assert BeforeTest(env, 0) == env[0].early;
    } else {
      var tick, second := FirstTick(ctl, env);
      var rest := Ticks(second, env[1..]);
      if second.doRun {
        TicksSee(second, env[1..]);
      } else {
        StopsAtOnce(second, env[1..]);
      }
      hide Ticks, ApplyAll;
      RestSeen(ctl, env, tick, second, rest);
    }
  }

  lemma RestSeen(ctl: Control, env: seq<Commands>, tick: Tick, second: Control, rest: seq<Tick>)
    requires env != [] && Stop !in env[0].early && SeenBy(ctl, env, 0, tick)
    requires second == ApplyAll(ApplyAll(ctl, env[0].early), env[0].late)
    requires if Stop in env[0].late then rest == [] else TicksSeen(second, env[1..], rest)
    ensures TicksSeen(ctl, env, [tick] + rest)
  {
    hide ApplyAll, SeenBy, BeforeTest;
    var ticks := [tick] + rest;
    assert Stop !in BeforeTest(env, 0) by {
      NoStopAtFirst(env);
    }
    forall k | 0 < k < |ticks| ensures Stop !in BeforeTest(env, k) && SeenBy(ctl, env, k, ticks[k]) {
      SeenLater(ctl, env, k - 1, rest[k - 1]);
    }
    if |ticks| < |env| {
      SeenLater(ctl, env, |rest|, tick);
    }
  }

  lemma NoStopAtFirst(env: seq<Commands>)
    requires env != [] && Stop !in env[0].early
    ensures Stop !in BeforeTest(env, 0)
  {
    assert BeforeTest(env, 0) == env[0].early;
  }

  // So each tick that is not paused advances by the speed last set before the
  // end of its sleep, or by the initial one.
  lemma AdvancesBySpeedLastSet(start: int, ctl: Control, env: seq<Commands>, k: nat,
                               a: seq<Command>, speed: nat, b: seq<Command>)
    requires ctl.doRun && k < |Ticks(ctl, env)| && k < |env|
    requires Before(env, k + 1) == a + [SetSpeed(speed)] + b || (Before(env, k + 1) == b && speed == ctl.speed)
    requires forall i | 0 <= i < |b| :: !b[i].SetSpeed?
    ensures var ticks := Ticks(ctl, env);
      SimTime(start, ticks[..k + 1]) - SimTime(start, ticks[..k])
      == if ticks[k].pausedAtAdvance then 0 else speed
  {
    var ticks := Ticks(ctl, env);
    hide Ticks, ApplyAll, Before, BeforeTest;
    TicksSee(ctl, env);
    LastSet(ctl, a, SetSpeed(speed), b);
    Unchanged(ctl, b);
    assert SeenBy(ctl, env, k, ticks[k]);
    assert ticks[..k + 1][..k] == ticks[..k];
  }

  // And it pings unless the last pause command before its loop test, or the
  // initial setting, says otherwise.
  lemma PingsUnlessPaused(start: int, ctl: Control, env: seq<Commands>, k: nat,
                          a: seq<Command>, paused: bool, b: seq<Command>)
    requires ctl.doRun && k < |Ticks(ctl, env)| && k < |env|
    requires BeforeTest(env, k) == a + [Pause(paused)] + b || (BeforeTest(env, k) == b && paused == ctl.pause)
    requires forall i | 0 <= i < |b| :: !b[i].Pause?
    ensures var ticks := Ticks(ctl, env);
      PingTimes(start, ticks[..k + 1])
      == PingTimes(start, ticks[..k]) + if paused then [] else [SimTime(start, ticks[..k])]
  {
    var ticks := Ticks(ctl, env);
    hide Ticks, ApplyAll, Before, BeforeTest;
    TicksSee(ctl, env);
    LastSet(ctl, a, Pause(paused), b);
    Unchanged(ctl, b);
    assert SeenBy(ctl, env, k, ticks[k]);
    assert ticks[..k + 1][..k] == ticks[..k];
  }

  // A day per tick, then an hour per tick; a stop during the third sleep still
  // lets that tick advance, and no fourth ping follows.
  lemma SlowDownAndStop(start: int)
    ensures var env := [Commands([], []), Commands([SetSpeed(3600)], []), Commands([], [Stop]), Commands([], [])];
            var ticks := Ticks(Control(true, false, 86400), env);
      && PingTimes(start, ticks) == [start, start + 86400, start + 90000]
      && SimTime(start, ticks) == start + 93600
  {
    var ctl, slow := Control(true, false, 86400), Control(true, false, 3600);
    var env := [Commands([], []), Commands([SetSpeed(3600)], []), Commands([], [Stop]), Commands([], [])];
    var t := [Tick(false, false, 86400), Tick(false, false, 3600), Tick(false, false, 3600)];
    assert env[1..][1..][1..] == [env[3]] && env[1..][1..] == [env[2], env[3]] && env[1..] == [env[1], env[2], env[3]];
    assert ApplyAll(ctl, [SetSpeed(3600)]) == slow;
    assert ApplyAll(slow, [Stop]) == slow.(doRun := false);
    StopsAtOnce(slow.(doRun := false), [env[3]]);
    assert Ticks(slow, [env[2], env[3]]) == [t[2]];
    assert Ticks(ctl, env[1..]) == [t[1], t[2]];
    assert Ticks(ctl, env) == t;
    assert t[..2][..1][..0] == [] && t[..2][..1] == [t[0]] && t[..2] == [t[0], t[1]];
    assert SimTime(start, [t[0]]) == start + 86400 && PingTimes(start, [t[0]]) == [start];
    assert SimTime(start, [t[0], t[1]]) == start + 90000;
    assert PingTimes(start, [t[0], t[1]]) == [start, start + 86400];
  }

  // ---------------------------------------------------------------------
  // Pings
  // ---------------------------------------------------------------------

  lemma {:induction false} PingsNeverGoBack(start: int, ticks: seq<Tick>)
    ensures start <= SimTime(start, ticks)
    ensures forall i | 0 <= i < |PingTimes(start, ticks)| ::
      start <= PingTimes(start, ticks)[i] <= SimTime(start, ticks)
    ensures forall i, j | 0 <= i <= j < |PingTimes(start, ticks)| ::
      PingTimes(start, ticks)[i] <= PingTimes(start, ticks)[j]
  {
    if ticks != [] {
      PingsNeverGoBack(start, ticks[..|ticks| - 1]);
    }
  }

  // ---------------------------------------------------------------------
  // Backlog under any commands
  // ---------------------------------------------------------------------

  lemma {:induction false} LatestOfOrdered(pings: seq<int>)
    requires pings != []
    requires forall i, j | 0 <= i <= j < |pings| :: pings[i] <= pings[j]
    ensures Latest(pings) == pings[|pings| - 1]
  {
    var n := |pings| - 1;
    if n > 0 {
      LatestOfOrdered(pings[..n]);
    }
  }

  ghost predicate StepByStep(b0: int, pings: seq<int>) {
    && (pings != [] ==> pings[0] < b0 + DAY)
    && (forall n | 0 < n < |pings| :: pings[n] < BoundaryAfter(b0, pings[n - 1]) + DAY)
  }

  // However the clock is paused, resumed and sped up: if its pings complete in
  // order, no boundary is ever overdue exactly when the first ping reaches at
  // most the first boundary and no ping reaches two that its predecessor had not.
  lemma ClockKeepsUpIff(start: int, ticks: seq<Tick>)
    ensures var b0, pings := SixAm(start), PingTimes(start, ticks);
      NeverOverdue(b0, pings) <==> StepByStep(b0, pings)
  {
    var b0, pings := SixAm(start), PingTimes(start, ticks);
    NeverOverdueIff(b0, pings);
    PingsNeverGoBack(start, ticks);
    hide PingTimes, NeverOverdue, NextAfter, BoundaryAfter;
    forall n | 0 < n < |pings| ensures Unreached(b0, pings[..n]) == BoundaryAfter(b0, pings[n - 1]) {
      hide Latest;
      LatestOfOrdered(pings[..n]);
    }
    assert pings != [] ==> Unreached(b0, pings[..0]) == b0;
  }

  // A tick that advances at most a day and does not resume during its sleep.
  ghost predicate Steady(tick: Tick) {
    && (!tick.pausedAtAdvance ==> tick.speed <= DAY)
    && (tick.pausedAtPing ==> tick.pausedAtAdvance)
  }

  // Such ticks keep pings at most a day apart, however the clock is paused,
  // resumed and sped up in between.
  lemma {:induction false} SteadyTicksSteadyPings(start: int, ticks: seq<Tick>)
    requires forall k | 0 <= k < |ticks| :: Steady(ticks[k])
    ensures var pings := PingTimes(start, ticks);
      && (pings == [] ==> SimTime(start, ticks) == start)
      && (pings != [] ==> pings[0] == start && SimTime(start, ticks) - pings[|pings| - 1] <= DAY)
      && (forall i | 0 < i < |pings| :: pings[i] - pings[i - 1] <= DAY)
  {
    if ticks != [] {
      var n := |ticks| - 1;
      SteadyTicksSteadyPings(start, ticks[..n]);
      assert Steady(ticks[n]);
      if ticks[n].pausedAtPing {
        assert PingTimes(start, ticks) == PingTimes(start, ticks[..n]);
      }
    }
  }

  // So a clock at the default speed or slower never leaves a boundary overdue.
  lemma SteadyClockKeepsUp(start: int, ticks: seq<Tick>)
    requires forall k | 0 <= k < |ticks| :: Steady(ticks[k])
    ensures NeverOverdue(SixAm(start), PingTimes(start, ticks))
  {
    SteadyTicksSteadyPings(start, ticks);
    NoBacklog(start, PingTimes(start, ticks));
  }

  // One resume during a sleep is enough to break this at the default speed:
  // the second tick advances without having pinged.
  lemma ResumeDuringSleepFallsBehind()
    ensures var start := SixAm(0) - 1;
            var env := [Commands([], []), Commands([Pause(true)], [Pause(false)]), Commands([], [])];
            var pings := PingTimes(start, Ticks(Control(true, false, DAY), env));
      pings == [start, start + 2 * DAY] && !NeverOverdue(SixAm(start), pings)
  {
    var start, ctl := SixAm(0) - 1, Control(true, false, DAY);
    var env := [Commands([], []), Commands([Pause(true)], [Pause(false)]), Commands([], [])];
    var t := [Tick(false, false, DAY), Tick(true, false, DAY), Tick(false, false, DAY)];
    TicksOfResume(ctl, env, t);
    assert t[..2][..1][..0] == [] && t[..2][..1] == [t[0]] && t[..2] == [t[0], t[1]];
    assert SimTime(start, []) == start;
    assert SimTime(start, [t[0]]) == start + DAY;
    assert SimTime(start, [t[0], t[1]]) == start + 2 * DAY;
    assert PingTimes(start, [t[0]]) == [start];
    assert PingTimes(start, [t[0], t[1]]) == [start];
    ClockKeepsUpIff(start, t);
    assert [start, start + 2 * DAY][1] >= BoundaryAfter(SixAm(start), start) + DAY;
  }

  lemma TicksOfResume(ctl: Control, env: seq<Commands>, ticks: seq<Tick>)
    requires ctl == Control(true, false, DAY)
    requires env == [Commands([], []), Commands([Pause(true)], [Pause(false)]), Commands([], [])]
    requires ticks == [Tick(false, false, DAY), Tick(true, false, DAY), Tick(false, false, DAY)]
    ensures Ticks(ctl, env) == ticks
  {
    assert env[1..] == [env[1], env[2]] && env[1..][1..] == [env[2]] && env[1..][1..][1..] == [];
    var paused := ctl.(pause := true);
    assert ApplyAll(ctl, [Pause(true)]) == paused;
    assert ApplyAll(paused, [Pause(false)]) == ctl;
    assert Ticks(ctl, [env[2]]) == [ticks[2]];
    assert Ticks(ctl, [env[1], env[2]]) == [ticks[1], ticks[2]];
  }
}
