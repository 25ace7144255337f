/** The per-instance lifecycle driver (`HandleAutoImei`) and the fleet
    launch (`main`).

    The collaborators (the console commands, the boot wait, `getprop`, the
    database) are replaced by an `Oracle` per loop iteration that says how
    each of them answers. A driver's infinite loop runs over a finite trace
    of such oracles: when the trace runs out the driver is still running
    and still holds its token. The semaphore channel is a counter of held
    tokens against its capacity. Drivers run one after the other in listing
    order, which is one of the schedules the goroutines allow: a driver
    that finds every token held by a driver that is still running waits
    forever, which the model reports as `Blocked`. */
module Driver {
  import opened Wrappers
  import LeiDian
  import Sqlite

  /** The fixed sleeps of the driver and of the IMEI filter. */
  datatype Pause = Settle | PreLaunch | Warmup | AdbCooldown

  function Seconds(p: Pause): nat {
    match p
    case Settle => 2
    case PreLaunch => 2
    case Warmup => 20
    case AdbCooldown => LeiDian.AdbCooldown
  }

  /** What a driver or `main` does that can be seen from outside, in order. */
  datatype Event =
    | Acquire(id: string)                      // sem <- struct{}{}
    | Release(id: string)                      // <-sem
    | Modify(id: string)                       // ldconsole modify --imei auto
    | Sleep(pause: Pause)
    | Start(id: string)                        // ldconsole launch
    | BootWait(id: string)                     // WaitForBootComplete
    | RunApp(id: string, packageName: string)  // ldconsole runapp
    | GetProp(id: string)                      // ldconsole getprop phone.imei
    | AdbKill                                  // adb kill-server
    | AdbStart                                 // adb start-server
    | ExistsQuery(imei: string)                // CheckIMEIExists
    | Insert(id: string, imei: string)         // InsertStoreIMEI
    | Quit(id: string)                         // ldconsole quit
    | QuitAll                                  // ldconsole quitall

  /** The collaborator whose failure ended a driver. */
  datatype Stage = ModifyFailed | StartFailed | RunAppFailed | GetPropFailed | ExistsFailed | InsertFailed

  /** How the collaborators answer during one iteration: whether `modify`,
      `launch` and `runapp` succeed, what the boot wait reports, what
      `getprop` prints (`None` when it fails), and whether the existence
      query and the insert statement fail. */
  datatype Oracle = Oracle(
    modifyOk: bool,
    startOk: bool,
    booted: bool,
    runAppOk: bool,
    prop: Option<string>,
    existsFails: bool,
    insertFails: bool)

  /** One iteration: the events it issues, the table after it, and the
      failure that ended the driver, if any. */
  datatype Cycle = Cycle(events: seq<Event>, table: Sqlite.Table, failed: Option<Stage>)

  /** A driver's run: its events, the table after it, and how it ended. */
  datatype Run = Run(events: seq<Event>, table: Sqlite.Table, exit: Exit)

  /** `Aborted(k, s)`: iteration `k` failed at `s` and the driver returned;
      `Running(n)`: `n` iterations completed and the driver goes on;
      `Blocked`: the driver never got a token. */
  datatype Exit = Aborted(iteration: nat, stage: Stage) | Running(iterations: nat) | Blocked

  function AdbEvent(a: LeiDian.AdbAction): Event {
    match a
    case KillServer => AdbKill
    case Cooldown => Sleep(AdbCooldown)
    case StartServer => AdbStart
  }

  function AdbEvents(actions: seq<LeiDian.AdbAction>): seq<Event> {
    if actions == [] then [] else [AdbEvent(actions[0])] + AdbEvents(actions[1..])
  }

  /** The commands up to and including the launch of iteration `count`. */
  function Started(id: string, count: nat): seq<Event> {
    [Modify(id)] + (if count > 1 then [Sleep(Settle)] else []) + [Start(id)]
  }

  /** The events of part of an iteration, and the failure that ended it, if any. */
  datatype Part = Part(events: seq<Event>, failed: Option<Stage>)

  /** Iteration `count` up to the IMEI read: `modify`, the settle pause
      from the second iteration on, the launch, the boot wait, and the app
      start with its pauses when the boot wait reports true. */
  function Front(id: string, pkg: string, count: nat, o: Oracle): Part {
    if !o.modifyOk then Part([Modify(id)], Some(ModifyFailed))
    else if !o.startOk then Part(Started(id, count), Some(StartFailed))
    else if !o.booted then Part(Started(id, count) + [BootWait(id), GetProp(id)], None)
    else if !o.runAppOk then Part(Started(id, count) + [BootWait(id), Sleep(PreLaunch), RunApp(id, pkg)], Some(RunAppFailed))
    else Part(Started(id, count) + [BootWait(id), Sleep(PreLaunch), RunApp(id, pkg), Sleep(Warmup), GetProp(id)], None)
  }

  /** The rest of an iteration once `imei` was read: the filter, then for
      an accepted IMEI the existence query and, when it is new, the insert;
      the instance is quit unless a database call failed. */
  function Back(id: string, imei: string, o: Oracle, t: Sqlite.Table): Cycle {
    var verdict := LeiDian.IsValidIMEI(imei);
    var checked := AdbEvents(verdict.actions);
    if !verdict.valid then Cycle(checked + [Quit(id)], t, None)
    else if o.existsFails then Cycle(checked + [ExistsQuery(imei)], t, Some(ExistsFailed))
    else if Sqlite.Has(t, imei) then Cycle(checked + [ExistsQuery(imei), Quit(id)], t, None)
    else if o.insertFails then Cycle(checked + [ExistsQuery(imei), Insert(id, imei)], t, Some(Stage.InsertFailed))
    else Cycle(checked + [ExistsQuery(imei), Insert(id, imei), Quit(id)], Sqlite.InsertOrIgnore(t, imei, id), None)
  }

  /** Iteration number `count` of `HandleAutoImei` on table `t`. */
  function RunCycle(id: string, pkg: string, count: nat, o: Oracle, t: Sqlite.Table): Cycle {
    var f := Front(id, pkg, count, o);
    if f.failed.Some? then Cycle(f.events, t, f.failed)
    else
      match LeiDian.GetPropImei(o.prop)
      case Err(_) => Cycle(f.events, t, Some(GetPropFailed))
      case Ok(imei) =>
        var b := Back(id, imei, o, t);
        Cycle(f.events + b.events, b.table, b.failed)
  }

  /** The loop of `HandleAutoImei` after `done` iterations, over the oracles
      of the iterations still to come. */
  function Loop(id: string, pkg: string, done: nat, trace: seq<Oracle>, t: Sqlite.Table): Run
    decreases |trace|
  {
    if trace == [] then Run([], t, Running(done))
    else
      var c := RunCycle(id, pkg, done + 1, trace[0], t);
      if c.failed.Some? then Run(c.events + [Release(id)], c.table, Aborted(done + 1, c.failed.value))
      else
        var rest := Loop(id, pkg, done + 1, trace[1..], c.table);
        Run(c.events + rest.events, rest.table, rest.exit)
  }

  /** `HandleAutoImei`: takes a token if one is free, then loops. */
  function Drive(id: string, pkg: string, tokenFree: bool, trace: seq<Oracle>, t: Sqlite.Table): Run {
    if !tokenFree then Run([], t, Blocked)
    else
      var r := Loop(id, pkg, 0, trace, t);
      Run([Acquire(id)] + r.events, r.table, r.exit)
  }

  // ---------------------------------------------------------------------
  // Counting events

  /** The kinds of event that are counted: tokens taken and given back,
      `modify` and `quitall` commands. */
  datatype Kind = Acquires | Releases | Modifies | QuitAlls

  predicate Of(k: Kind, e: Event) {
    match k
    case Acquires => e.Acquire?
    case Releases => e.Release?
    case Modifies => e.Modify?
    case QuitAlls => e.QuitAll?
  }

  function Count(events: seq<Event>, k: Kind): nat {
    if events == [] then 0 else (if Of(k, events[0]) then 1 else 0) + Count(events[1..], k)
  }

  /** `events` holds that many events of each counted kind. */
  predicate Tallies(events: seq<Event>, acquires: nat, releases: nat, modifyCalls: nat, quitAlls: nat) {
    Count(events, Acquires) == acquires && Count(events, Releases) == releases
    && Count(events, Modifies) == modifyCalls && Count(events, QuitAlls) == quitAlls
  }

  lemma {:induction false} CountAppend(a: seq<Event>, b: seq<Event>)
    ensures forall k :: Count(a + b, k) == Count(a, k) + Count(b, k)
  {
    if a == [] {
      assert a + b == b;
    } else {
      assert (a + b)[1..] == a[1..] + b;
      CountAppend(a[1..], b);
    }
  }

  lemma CountOne(e: Event)
    ensures forall k :: Count([e], k) == if Of(k, e) then 1 else 0
  {
    assert [e][1..] == [];
  }

  /** The events that follow the IMEI read. */
  predicate AfterRead(e: Event) {
    e.AdbKill? || e.AdbStart? || e == Sleep(AdbCooldown) || e.ExistsQuery? || e.Insert? || e.Quit?
  }

  lemma {:induction false} CountAfterRead(a: seq<Event>)
    requires forall k :: 0 <= k < |a| ==> AfterRead(a[k])
    ensures Tallies(a, 0, 0, 0, 0)
  {
    if a != [] {
      CountAfterRead(a[1..]);
    }
  }

  /** The event that reports a call to the collaborator that failed. */
  predicate FailedCall(s: Stage, e: Event) {
    match s
    case ModifyFailed => e.Modify?
    case StartFailed => e.Start?
    case RunAppFailed => e.RunApp?
    case GetPropFailed => e.GetProp?
    case ExistsFailed => e.ExistsQuery?
    case InsertFailed => e.Insert?
  }

  // ---------------------------------------------------------------------
  // One iteration

  /** The filter's bridge restart is logged as `adb kill-server`, the 10 s
      pause and `adb start-server`, one event per action, in the order the
      filter takes them. */
  lemma {:induction false} AdbEventsShape(actions: seq<LeiDian.AdbAction>)
    ensures |AdbEvents(actions)| == |actions|
    ensures forall k :: 0 <= k < |AdbEvents(actions)| ==> AdbEvents(actions)[k] in {AdbKill, Sleep(AdbCooldown), AdbStart}
    ensures actions == [] ==> AdbEvents(actions) == []
    ensures actions == [LeiDian.KillServer, LeiDian.Cooldown, LeiDian.StartServer] ==>
      AdbEvents(actions) == [AdbKill, Sleep(AdbCooldown), AdbStart]
    ensures Seconds(AdbCooldown) == 10
  {
    if actions != [] {
      AdbEventsShape(actions[1..]);
      if actions == [LeiDian.KillServer, LeiDian.Cooldown, LeiDian.StartServer] {
        assert actions[1..] == [LeiDian.Cooldown, LeiDian.StartServer];
        assert actions[1..][1..] == [LeiDian.StartServer];
        assert actions[1..][1..][1..] == [];
      }
    }
  }

  /** The front of an iteration starts with the one `modify` and takes or
      gives back no token; it ends with the failed call, or, when every
      command before it succeeds, with the IMEI read. */
  lemma FrontShape(id: string, pkg: string, count: nat, o: Oracle)
    ensures var f := Front(id, pkg, count, o);
      f.events != [] && f.events[0] == Modify(id)
      && Tallies(f.events, 0, 0, 1, 0)
      && (forall k :: 0 <= k < |f.events| ==> !f.events[k].Insert? && !f.events[k].Quit?)
      && (f.failed.None? <==> o.modifyOk && o.startOk && (o.booted ==> o.runAppOk))
      && (f.failed.Some? ==> FailedCall(f.failed.value, f.events[|f.events| - 1]))
      && (f.failed.None? ==> f.events[|f.events| - 1] == GetProp(id))
  {
    FrontCounts(id, pkg, count, o);
  }

  lemma FrontCounts(id: string, pkg: string, count: nat, o: Oracle)
    ensures Tallies(Front(id, pkg, count, o).events, 0, 0, 1, 0)
  {
    if !o.modifyOk {
      CountOne(Modify(id));
    } else {
      var started := Started(id, count);
      var extra :=
        if !o.startOk then []
        else if !o.booted then [BootWait(id), GetProp(id)]
        else if !o.runAppOk then [BootWait(id), Sleep(PreLaunch), RunApp(id, pkg)]
        else [BootWait(id), Sleep(PreLaunch), RunApp(id, pkg), Sleep(Warmup), GetProp(id)];
      assert Front(id, pkg, count, o).events == started + extra;
      StartedCounts(id, count);
      CountNone(extra);
      CountAppend(started, extra);
    }
  }

  lemma StartedCounts(id: string, count: nat)
    ensures Tallies(Started(id, count), 0, 0, 1, 0)
  {
    var settle: seq<Event> := if count > 1 then [Sleep(Settle)] else [];
    CountOne(Modify(id));
    CountNone(settle);
    CountNone([Start(id)]);
    CountAppend([Modify(id)], settle);
    CountAppend([Modify(id)] + settle, [Start(id)]);
  }

  lemma {:induction false} CountNone(a: seq<Event>)
    requires forall k :: 0 <= k < |a| ==> !a[k].Acquire? && !a[k].Release? && !a[k].Modify? && !a[k].QuitAll?
    ensures Tallies(a, 0, 0, 0, 0)
  {
    if a != [] {
      CountNone(a[1..]);
    }
  }

  /** Everything after the IMEI read is the filter's bridge restart, the
      database calls and the quit; the table changes only by inserting
      the read IMEI, when the filter accepted it and the query did not
      find it; a failed database call is the last event and leaves the
      table as it was; otherwise the iteration ends with the quit. */
  lemma BackShape(id: string, imei: string, o: Oracle, t: Sqlite.Table)
    ensures var b := Back(id, imei, o, t);
      b.events != []
      && (forall k :: 0 <= k < |b.events| ==> AfterRead(b.events[k]))
      && (forall k :: 0 <= k < |b.events| && b.events[k].Insert? ==>
            b.events[k] == Insert(id, imei) && LeiDian.IsValidIMEI(imei).valid && !o.existsFails && !Sqlite.Has(t, imei))
      && (b.table != t ==> b.failed.None? && b.table == Sqlite.InsertOrIgnore(t, imei, id) && Insert(id, imei) in b.events)
      && (b.failed.Some? ==> b.table == t && FailedCall(b.failed.value, b.events[|b.events| - 1]))
      && (b.failed.None? ==> b.events[|b.events| - 1] == Quit(id))
  {
    var verdict := LeiDian.IsValidIMEI(imei);
    AdbEventsShape(verdict.actions);
    assert verdict.valid ==> AdbEvents(verdict.actions) == [];
    var checked := AdbEvents(verdict.actions);
    assert forall k :: 0 <= k < |checked| ==> AfterRead(checked[k]);
  }

  /** What follows the IMEI read opens with `adb kill-server`, the 10 s
      pause and `adb start-server` exactly when the filter restarts the
      bridge. */
  lemma BackRestart(id: string, imei: string, o: Oracle, t: Sqlite.Table)
    ensures var b := Back(id, imei, o, t);
      LeiDian.IsValidIMEI(imei).actions != [] <==>
        |b.events| >= 3 && b.events[..3] == [AdbKill, Sleep(AdbCooldown), AdbStart]
  {
    var verdict := LeiDian.IsValidIMEI(imei);
    LeiDian.IsValidImeiMeaning(imei);
    AdbEventsShape(verdict.actions);
    var checked := AdbEvents(verdict.actions);
    var rest: seq<Event> :=
      if !verdict.valid then [Quit(id)]
      else if o.existsFails then [ExistsQuery(imei)]
      else if Sqlite.Has(t, imei) then [ExistsQuery(imei), Quit(id)]
      else if o.insertFails then [ExistsQuery(imei), Insert(id, imei)]
      else [ExistsQuery(imei), Insert(id, imei), Quit(id)];
    assert Back(id, imei, o, t).events == checked + rest;
    if verdict.actions != [] {
      assert (checked + rest)[..3] == checked;
    } else {
      assert (checked + rest)[0] == rest[0];
    }
  }

  /** An iteration starts with the one `modify`, takes or gives back no
      token and never calls `quitall`. */
  lemma CycleCounts(id: string, pkg: string, count: nat, o: Oracle, t: Sqlite.Table)
    ensures var c := RunCycle(id, pkg, count, o, t);
      c.events != [] && c.events[0] == Modify(id) && Tallies(c.events, 0, 0, 1, 0)
  {
    var f := Front(id, pkg, count, o);
    FrontShape(id, pkg, count, o);
    if f.failed.None? && LeiDian.GetPropImei(o.prop).Ok? {
      var b := Back(id, LeiDian.GetPropImei(o.prop).value, o, t);
      BackShape(id, LeiDian.GetPropImei(o.prop).value, o, t);
      CountAfterRead(b.events);
      CountAppend(f.events, b.events);
    }
  }

  /** A failing collaborator is the last call of the iteration, and the
      table is left as it was. */
  lemma FailureIsLastCall(id: string, pkg: string, count: nat, o: Oracle, t: Sqlite.Table)
    ensures var c := RunCycle(id, pkg, count, o, t);
      c.failed.Some? ==> c.table == t && FailedCall(c.failed.value, c.events[|c.events| - 1])
  {
    var f := Front(id, pkg, count, o);
    FrontShape(id, pkg, count, o);
    if f.failed.None? && LeiDian.GetPropImei(o.prop).Ok? {
      BackShape(id, LeiDian.GetPropImei(o.prop).value, o, t);
    }
  }

  /** The 2 s settle pause comes right after a successful `modify` and
      right before the launch, and only from the second iteration on. */
  lemma SettlePause(id: string, pkg: string, count: nat, o: Oracle, t: Sqlite.Table)
    requires o.modifyOk
    ensures var e := RunCycle(id, pkg, count, o, t).events;
      |e| >= 2 && e[0] == Modify(id)
      && (count > 1 ==> |e| >= 3 && e[1] == Sleep(Settle) && e[2] == Start(id))
      && (count <= 1 ==> e[1] == Start(id))
      && Seconds(Settle) == 2
  {
    var f := Front(id, pkg, count, o);
    var c := RunCycle(id, pkg, count, o, t);
    assert f.events[..|Started(id, count)|] == Started(id, count);
    assert c.events[..|f.events|] == f.events;
  }

  /** When the boot wait reports true, the app is launched 2 s after it,
      and the IMEI is read after the 20 s warm-up once the app started
      (the front of an iteration opens its events, `CycleStartsWithFront`). */
  lemma AppAfterBoot(id: string, pkg: string, count: nat, o: Oracle)
    requires o.modifyOk && o.startOk && o.booted
    ensures var e := Front(id, pkg, count, o).events;
      var n := |Started(id, count)|;
      |e| >= n + 3 && e[n..n + 3] == [BootWait(id), Sleep(PreLaunch), RunApp(id, pkg)]
      && (o.runAppOk ==> |e| == n + 5 && e[n + 3..] == [Sleep(Warmup), GetProp(id)])
      && (!o.runAppOk ==> |e| == n + 3)
      && Seconds(PreLaunch) == 2 && Seconds(Warmup) == 20
  {
    var e := Front(id, pkg, count, o).events;
    var n := |Started(id, count)|;
    assert e[n..n + 3] == [BootWait(id), Sleep(PreLaunch), RunApp(id, pkg)];
  }

  /** The events of an iteration start with those of its front. */
  lemma CycleStartsWithFront(id: string, pkg: string, count: nat, o: Oracle, t: Sqlite.Table)
    ensures var f := Front(id, pkg, count, o);
      var e := RunCycle(id, pkg, count, o, t).events;
      |f.events| <= |e| && e[..|f.events|] == f.events
  {
  }

  /** When the boot wait reports false, the IMEI is read right after it
      and no app is started in the iteration. */
  lemma NoAppWithoutBoot(id: string, pkg: string, count: nat, o: Oracle, t: Sqlite.Table)
    requires o.modifyOk && o.startOk && !o.booted
    ensures var e := RunCycle(id, pkg, count, o, t).events;
      var n := |Started(id, count)|;
      |e| >= n + 2 && e[n..n + 2] == [BootWait(id), GetProp(id)]
      && forall k :: 0 <= k < |e| ==> !e[k].RunApp?
  {
    var f := Front(id, pkg, count, o);
    var c := RunCycle(id, pkg, count, o, t);
    assert c.events[..|f.events|] == f.events;
    if LeiDian.GetPropImei(o.prop).Ok? {
      var b := Back(id, LeiDian.GetPropImei(o.prop).value, o, t);
      BackShape(id, LeiDian.GetPropImei(o.prop).value, o, t);
      forall k | 0 <= k < |c.events| ensures !c.events[k].RunApp? {
        if k >= |f.events| {
          assert c.events[k] == b.events[k - |f.events|];
        }
      }
    }
  }

  /** An insert is issued only for the IMEI that was read, when the filter
      accepted it and the existence query ran and did not find it; it is
      the only way the table changes. */
  lemma InsertOnlyNewValid(id: string, pkg: string, count: nat, o: Oracle, t: Sqlite.Table)
    ensures var c := RunCycle(id, pkg, count, o, t);
      (forall k :: 0 <= k < |c.events| && c.events[k].Insert? ==>
         c.events[k] == Insert(id, c.events[k].imei)
         && LeiDian.GetPropImei(o.prop) == Ok(c.events[k].imei)
         && LeiDian.IsValidIMEI(c.events[k].imei).valid && !o.existsFails && !Sqlite.Has(t, c.events[k].imei))
      && (c.table != t ==> c.failed.None? && exists imei :: c.table == Sqlite.InsertOrIgnore(t, imei, id) && Insert(id, imei) in c.events)
  {
    var f := Front(id, pkg, count, o);
    var c := RunCycle(id, pkg, count, o, t);
    FrontShape(id, pkg, count, o);
    if f.failed.None? && LeiDian.GetPropImei(o.prop).Ok? {
      var imei := LeiDian.GetPropImei(o.prop).value;
      var b := Back(id, imei, o, t);
      BackShape(id, imei, o, t);
      forall k | 0 <= k < |c.events| && c.events[k].Insert?
        ensures c.events[k] == Insert(id, imei) && LeiDian.IsValidIMEI(imei).valid && !o.existsFails && !Sqlite.Has(t, imei)
      {
        assert k >= |f.events|;
        assert c.events[k] == b.events[k - |f.events|];
      }
      if c.table != t {
        assert Insert(id, imei) in c.events;
      }
    }
  }

  /** An IMEI that fails the filter, or that is already stored, skips the
      insert; the iteration still quits the instance and the loop goes on. */
  lemma SkipStillQuits(id: string, pkg: string, count: nat, o: Oracle, t: Sqlite.Table, imei: string)
    requires o.modifyOk && o.startOk && (o.booted ==> o.runAppOk)
    requires LeiDian.GetPropImei(o.prop) == Ok(imei)
    requires !LeiDian.IsValidIMEI(imei).valid || (!o.existsFails && Sqlite.Has(t, imei))
    ensures var c := RunCycle(id, pkg, count, o, t);
      c.failed.None? && c.table == t && c.events[|c.events| - 1] == Quit(id)
      && forall k :: 0 <= k < |c.events| ==> !c.events[k].Insert?
  {
    var f := Front(id, pkg, count, o);
    var b := Back(id, imei, o, t);
    var c := RunCycle(id, pkg, count, o, t);
    FrontShape(id, pkg, count, o);
    BackShape(id, imei, o, t);
    forall k | 0 <= k < |c.events| ensures !c.events[k].Insert? {
      if k < |f.events| {
        assert c.events[k] == f.events[k];
      } else {
        assert c.events[k] == b.events[k - |f.events|];
      }
    }
  }

  /** With every collaborator answering well and a fresh IMEI, the
      iteration inserts that IMEI for this instance and then quits it. */
  lemma FreshImeiStored(id: string, pkg: string, count: nat, o: Oracle, t: Sqlite.Table, imei: string)
    requires o.modifyOk && o.startOk && (o.booted ==> o.runAppOk) && !o.existsFails && !o.insertFails
    requires LeiDian.GetPropImei(o.prop) == Ok(imei) && LeiDian.IsValidIMEI(imei).valid
    requires !Sqlite.Has(t, imei)
    ensures var c := RunCycle(id, pkg, count, o, t);
      c.failed.None? && Sqlite.Has(c.table, imei)
      && c.events[|c.events| - 3..] == [ExistsQuery(imei), Insert(id, imei), Quit(id)]
  {
    Sqlite.HasAfterInsert(t, imei, id, imei);
    var verdict := LeiDian.IsValidIMEI(imei);
    assert AdbEvents(verdict.actions) == [];
  }

  // ---------------------------------------------------------------------
  // The whole loop

  /** The loop counts one iteration per oracle until one fails. Each
      iteration issues one `modify`; the loop takes no token and issues no
      `quitall`; it gives its token back once when a collaborator fails,
      and never while it goes on. */
  lemma {:induction false} LoopCounts(id: string, pkg: string, done: nat, trace: seq<Oracle>, t: Sqlite.Table)
    ensures var r := Loop(id, pkg, done, trace, t);
      match r.exit
      case Aborted(k, _) => done < k <= done + |trace| && Tallies(r.events, 0, 1, k - done, 0)
      case Running(n) => n == done + |trace| && Tallies(r.events, 0, 0, n - done, 0)
      case Blocked => false
    decreases |trace|
  {
    if trace != [] {
      var c := RunCycle(id, pkg, done + 1, trace[0], t);
      CycleCounts(id, pkg, done + 1, trace[0], t);
      if c.failed.Some? {
        assert Loop(id, pkg, done, trace, t).events == c.events + [Release(id)];
        CountAppend(c.events, [Release(id)]);
        CountOne(Release(id));
      } else {
        var rest := Loop(id, pkg, done + 1, trace[1..], c.table);
        assert Loop(id, pkg, done, trace, t) == Run(c.events + rest.events, rest.table, rest.exit);
        LoopCounts(id, pkg, done + 1, trace[1..], c.table);
        CountAppend(c.events, rest.events);
      }
    }
  }

  /** A loop that stops because a collaborator failed ends with the failed
      call followed by giving the token back. */
  lemma {:induction false} LoopEnding(id: string, pkg: string, done: nat, trace: seq<Oracle>, t: Sqlite.Table)
    ensures var r := Loop(id, pkg, done, trace, t);
      r.exit.Aborted? ==>
        |r.events| >= 2 && r.events[|r.events| - 1] == Release(id)
        && FailedCall(r.exit.stage, r.events[|r.events| - 2])
    decreases |trace|
  {
    if trace != [] {
      var c := RunCycle(id, pkg, done + 1, trace[0], t);
      if c.failed.Some? {
        assert Loop(id, pkg, done, trace, t) == Run(c.events + [Release(id)], c.table, Aborted(done + 1, c.failed.value));
        FailureIsLastCall(id, pkg, done + 1, trace[0], t);
        LastTwo(c.events[..|c.events| - 1], [c.events[|c.events| - 1], Release(id)]);
        assert c.events + [Release(id)] == c.events[..|c.events| - 1] + [c.events[|c.events| - 1], Release(id)];
      } else {
        var rest := Loop(id, pkg, done + 1, trace[1..], c.table);
        assert Loop(id, pkg, done, trace, t) == Run(c.events + rest.events, rest.table, rest.exit);
        LoopEnding(id, pkg, done + 1, trace[1..], c.table);
        if rest.exit.Aborted? {
          LastTwo(c.events, rest.events);
        }
      }
    }
  }

  /** Iteration `k` of a loop started after `done` iterations fails at
      `s`: the loop ran through every iteration before it, and the
      iteration itself fails at `s` on the table they left. */
  predicate FailsAt(id: string, pkg: string, done: nat, trace: seq<Oracle>, t: Sqlite.Table, k: nat, s: Stage) {
    done < k <= done + |trace|
    && var before := Loop(id, pkg, done, trace[..k - done - 1], t);
    before.exit.Running? && RunCycle(id, pkg, k, trace[k - done - 1], before.table).failed == Some(s)
  }

  /** A driver stops after iteration `k` at `s` exactly when that iteration
      is the first one to fail, and it fails at `s`. */
  lemma LoopAbortsAt(id: string, pkg: string, done: nat, trace: seq<Oracle>, t: Sqlite.Table, k: nat, s: Stage)
    ensures Loop(id, pkg, done, trace, t).exit == Aborted(k, s) <==> FailsAt(id, pkg, done, trace, t, k, s)
  {
    if Loop(id, pkg, done, trace, t).exit == Aborted(k, s) {
      AbortedFails(id, pkg, done, trace, t, k, s);
    }
    if FailsAt(id, pkg, done, trace, t, k, s) {
      FailsAborts(id, pkg, done, trace, t, k, s);
    }
  }

  /** The first `j` iterations, when the first one does not fail: that one,
      then the `j - 1` after it. */
  lemma PrefixStep(id: string, pkg: string, done: nat, trace: seq<Oracle>, t: Sqlite.Table, j: nat)
    requires 1 <= j <= |trace|
    requires RunCycle(id, pkg, done + 1, trace[0], t).failed.None?
    ensures var c := RunCycle(id, pkg, done + 1, trace[0], t);
      var after := Loop(id, pkg, done + 1, trace[1..][..j - 1], c.table);
      Loop(id, pkg, done, trace[..j], t) == Run(c.events + after.events, after.table, after.exit)
  {
    var pre := trace[..j];
    assert pre[0] == trace[0] && pre[1..] == trace[1..][..j - 1];
  }

  lemma {:induction false} AbortedFails(id: string, pkg: string, done: nat, trace: seq<Oracle>, t: Sqlite.Table, k: nat, s: Stage)
    requires Loop(id, pkg, done, trace, t).exit == Aborted(k, s)
    ensures FailsAt(id, pkg, done, trace, t, k, s)
    decreases |trace|
  {
    var c := RunCycle(id, pkg, done + 1, trace[0], t);
    if c.failed.None? {
      var rest := Loop(id, pkg, done + 1, trace[1..], c.table);
      assert Loop(id, pkg, done, trace, t) == Run(c.events + rest.events, rest.table, rest.exit);
      AbortedFails(id, pkg, done + 1, trace[1..], c.table, k, s);
      PrefixStep(id, pkg, done, trace, t, k - done - 1);
      assert trace[1..][k - done - 2] == trace[k - done - 1];
    } else {
      assert trace[..0] == [];
      assert Loop(id, pkg, done, [], t) == Run([], t, Running(done));
    }
  }

  lemma {:induction false} FailsAborts(id: string, pkg: string, done: nat, trace: seq<Oracle>, t: Sqlite.Table, k: nat, s: Stage)
    requires FailsAt(id, pkg, done, trace, t, k, s)
    ensures Loop(id, pkg, done, trace, t).exit == Aborted(k, s)
    decreases |trace|
  {
    var c := RunCycle(id, pkg, done + 1, trace[0], t);
    if k == done + 1 {
      assert trace[..0] == [];
      assert Loop(id, pkg, done, [], t) == Run([], t, Running(done));
    } else if c.failed.None? {
      var rest := Loop(id, pkg, done + 1, trace[1..], c.table);
      assert Loop(id, pkg, done, trace, t) == Run(c.events + rest.events, rest.table, rest.exit);
      PrefixStep(id, pkg, done, trace, t, k - done - 1);
      assert trace[1..][k - done - 2] == trace[k - done - 1];
      FailsAborts(id, pkg, done + 1, trace[1..], c.table, k, s);
    } else {
      assert false;
    }
  }

  /** A driver is still running at the end of the trace exactly when no
      iteration failed. */
  lemma LoopRunsOn(id: string, pkg: string, done: nat, trace: seq<Oracle>, t: Sqlite.Table)
    ensures Loop(id, pkg, done, trace, t).exit.Running? <==>
      forall k: nat, s: Stage :: !FailsAt(id, pkg, done, trace, t, k, s)
  {
    var r := Loop(id, pkg, done, trace, t);
    LoopCounts(id, pkg, done, trace, t);
    forall k: nat, s: Stage
      ensures r.exit == Aborted(k, s) <==> FailsAt(id, pkg, done, trace, t, k, s)
    {
      LoopAbortsAt(id, pkg, done, trace, t, k, s);
    }
    if r.exit.Aborted? {
      assert FailsAt(id, pkg, done, trace, t, r.exit.iteration, r.exit.stage);
    }
  }

  lemma LastTwo(a: seq<Event>, b: seq<Event>)
    requires |b| >= 2
    ensures var ab := a + b;
      |ab| >= 2 && ab[|ab| - 1] == b[|b| - 1] && ab[|ab| - 2] == b[|b| - 2]
  {
  }

  /** A driver that gets a token takes it once, as its first event, and
      gives it back exactly once, as its last event, when it returns;
      while it is still running it holds it. A driver that gets no token
      issues nothing. */
  lemma TokenDiscipline(id: string, pkg: string, tokenFree: bool, trace: seq<Oracle>, t: Sqlite.Table)
    ensures var r := Drive(id, pkg, tokenFree, trace, t);
      (r.exit.Blocked? <==> !tokenFree)
      && (r.exit.Blocked? ==> r.events == [] && r.table == t)
      && (!r.exit.Blocked? ==> r.events[0] == Acquire(id) && Count(r.events, Acquires) == 1)
      && (r.exit.Aborted? ==> Count(r.events, Releases) == 1 && r.events[|r.events| - 1] == Release(id))
      && (r.exit.Running? ==> Count(r.events, Releases) == 0)
      && Count(r.events, Acquires) == Count(r.events, Releases) + (if r.exit.Running? then 1 else 0)
      && Count(r.events, QuitAlls) == 0
  {
    if tokenFree {
      var l := Loop(id, pkg, 0, trace, t);
      LoopCounts(id, pkg, 0, trace, t);
      LoopEnding(id, pkg, 0, trace, t);
      CountAppend([Acquire(id)], l.events);
    }
  }

  /** The table stays well formed, and every IMEI stored at the end was
      stored before or was inserted by this driver. */
  lemma {:induction false} LoopTable(id: string, pkg: string, done: nat, trace: seq<Oracle>, t: Sqlite.Table, imei: string)
    requires Sqlite.WellFormed(t)
    ensures var r := Loop(id, pkg, done, trace, t);
      Sqlite.WellFormed(r.table)
      && (Sqlite.Has(r.table, imei) ==> Sqlite.Has(t, imei) || Insert(id, imei) in r.events)
    decreases |trace|
  {
    if trace != [] {
      var c := RunCycle(id, pkg, done + 1, trace[0], t);
      InsertOnlyNewValid(id, pkg, done + 1, trace[0], t);
      if c.table != t {
        var x :| c.table == Sqlite.InsertOrIgnore(t, x, id) && Insert(id, x) in c.events;
        Sqlite.InsertWellFormed(t, x, id);
        Sqlite.HasAfterInsert(t, x, id, imei);
      }
      if c.failed.None? {
        LoopTable(id, pkg, done + 1, trace[1..], c.table, imei);
      }
    }
  }

  lemma Append3<T>(a: seq<T>, b: seq<T>, c: seq<T>)
    ensures (a + b) + c == a + (b + c)
  {
  }

  // ---------------------------------------------------------------------
  // The fleet

  /** The state of `main` while it launches drivers: the events so far,
      the table, the tokens held, the ids given a driver and how each
      driver ended. */
  datatype FleetRun = FleetRun(events: seq<Event>, table: Sqlite.Table, held: nat, launched: seq<string>, exits: seq<Exit>)

  /** How `main` ends: the listing failed; `make` panicked on a negative
      capacity; the channel has no room at all, so every driver and `main`
      wait forever and the runtime aborts on the deadlock; every driver
      returned and `quitall` ran; or `wg.Wait` is still waiting. */
  datatype Outcome = ListingFailed | ChannelPanic | Deadlock | AllReturned | StillWaiting

  /** The range loop of `main` from record `i` on. `traceOf(i)` holds the
      oracles of the driver of record `i`. */
  function Spawn(sims: seq<LeiDian.LDSimulator>, i: nat, pkg: string, capacity: nat,
                 traceOf: nat -> seq<Oracle>, s: FleetRun): FleetRun
    requires i <= |sims|
    decreases |sims| - i
  {
    if i == |sims| then s
    else if sims[i].id == "0" then Spawn(sims, i + 1, pkg, capacity, traceOf, s)
    else
      var d := Drive(sims[i].id, pkg, s.held < capacity, traceOf(i), s.table);
      Spawn(sims, i + 1, pkg, capacity, traceOf, Joined(s, sims[i].id, d))
  }

  /** The fleet after the driver of `id` ran as `d`: a driver still
      running keeps its token. */
  function Joined(s: FleetRun, id: string, d: Run): FleetRun {
    FleetRun(s.events + d.events, d.table, s.held + (if d.exit.Running? then 1 else 0),
             s.launched + [id], s.exits + [d.exit])
  }

  predicate AllAborted(exits: seq<Exit>) {
    forall k :: 0 <= k < |exits| ==> exits[k].Aborted?
  }

  /** `main`, from the listing on. */
  function Main(listing: Option<string>, maxConcurrency: int, pkg: string,
                traceOf: nat -> seq<Oracle>, t: Sqlite.Table): (Outcome, FleetRun)
  {
    var empty := FleetRun([], t, 0, [], []);
    match LeiDian.Listing(listing)
    case Err(_) => (ListingFailed, empty)
    case Ok(sims) =>
      if maxConcurrency < 0 then (ChannelPanic, empty)
      else
        var s := Spawn(sims, 0, pkg, maxConcurrency, traceOf, empty);
        if maxConcurrency == 0 && s.launched != [] then (Deadlock, s)
        else Finish(s)
  }

  /** `wg.Wait()` and `quitall`: `main` gets past the wait only when
      every driver has returned. */
  function Finish(s: FleetRun): (Outcome, FleetRun) {
    if AllAborted(s.exits) then (AllReturned, s.(events := s.events + [QuitAll]))
    else (StillWaiting, s)
  }

  /** `quitall` is issued once, as the last event, exactly when every
      driver has returned, and then no token is held. */
  lemma FinishShape(s: FleetRun)
    requires Balanced(s) && s.held == Holding(s.exits)
    ensures var (outcome, r) := Finish(s);
      outcome in {AllReturned, StillWaiting} && (outcome == AllReturned <==> AllAborted(s.exits))
      && r.launched == s.launched && r.exits == s.exits && r.held == s.held && r.table == s.table
      && Count(r.events, QuitAlls) == (if outcome == AllReturned then 1 else 0)
      && Count(r.events, Acquires) == Count(r.events, Releases) + r.held
      && (outcome == AllReturned ==> r.events[|r.events| - 1] == QuitAll && r.held == 0)
  {
    if AllAborted(s.exits) {
      CountAppend(s.events, [QuitAll]);
      CountOne(QuitAll);
      HoldingNone(s.exits);
    }
  }

  /** The ids of the records that get a driver: every id but "0", in listing order. */
  function EligibleIds(sims: seq<LeiDian.LDSimulator>, i: nat): seq<string>
    requires i <= |sims|
    decreases |sims| - i
  {
    if i == |sims| then []
    else (if sims[i].id == "0" then [] else [sims[i].id]) + EligibleIds(sims, i + 1)
  }

  function Holding(exits: seq<Exit>): nat {
    if exits == [] then 0 else (if exits[0].Running? then 1 else 0) + Holding(exits[1..])
  }

  lemma {:induction false} HoldingAppend(exits: seq<Exit>, e: Exit)
    ensures Holding(exits + [e]) == Holding(exits) + (if e.Running? then 1 else 0)
  {
    if exits != [] {
      assert (exits + [e])[1..] == exits[1..] + [e];
      HoldingAppend(exits[1..], e);
    }
  }

  /** One driver per record whose id is not "0", in order; the tokens held
      are those of the drivers still running and never exceed the capacity. */
  lemma {:induction false} SpawnShape(sims: seq<LeiDian.LDSimulator>, i: nat, pkg: string, capacity: nat,
                                      traceOf: nat -> seq<Oracle>, s: FleetRun)
    requires i <= |sims|
    requires |s.launched| == |s.exits| && s.held == Holding(s.exits) <= capacity
    ensures var r := Spawn(sims, i, pkg, capacity, traceOf, s);
      r.launched == s.launched + EligibleIds(sims, i)
      && |r.launched| == |r.exits|
      && r.held == Holding(r.exits) <= capacity
    decreases |sims| - i
  {
    if i < |sims| && sims[i].id != "0" {
      var d := Drive(sims[i].id, pkg, s.held < capacity, traceOf(i), s.table);
      assert d.exit.Running? ==> s.held < capacity;
      HoldingAppend(s.exits, d.exit);
      var s' := Joined(s, sims[i].id, d);
      assert Spawn(sims, i, pkg, capacity, traceOf, s) == Spawn(sims, i + 1, pkg, capacity, traceOf, s');
      SpawnShape(sims, i + 1, pkg, capacity, traceOf, s');
      Append3(s.launched, [sims[i].id], EligibleIds(sims, i + 1));
    } else if i < |sims| {
      assert Spawn(sims, i, pkg, capacity, traceOf, s) == Spawn(sims, i + 1, pkg, capacity, traceOf, s);
      SpawnShape(sims, i + 1, pkg, capacity, traceOf, s);
      assert EligibleIds(sims, i) == EligibleIds(sims, i + 1);
    } else {
      assert s.launched + [] == s.launched;
    }
  }

  /** The tokens held are the tokens taken less those given back, and no
      driver issues `quitall`. */
  lemma {:induction false} SpawnTokens(sims: seq<LeiDian.LDSimulator>, i: nat, pkg: string, capacity: nat,
                                       traceOf: nat -> seq<Oracle>, s: FleetRun)
    requires i <= |sims|
    requires Balanced(s)
    ensures Balanced(Spawn(sims, i, pkg, capacity, traceOf, s))
    decreases |sims| - i
  {
    if i < |sims| && sims[i].id != "0" {
      var d := Drive(sims[i].id, pkg, s.held < capacity, traceOf(i), s.table);
      TokenDiscipline(sims[i].id, pkg, s.held < capacity, traceOf(i), s.table);
      JoinedBalanced(s, sims[i].id, d);
      assert Spawn(sims, i, pkg, capacity, traceOf, s) == Spawn(sims, i + 1, pkg, capacity, traceOf, Joined(s, sims[i].id, d));
      SpawnTokens(sims, i + 1, pkg, capacity, traceOf, Joined(s, sims[i].id, d));
    } else if i < |sims| {
      assert Spawn(sims, i, pkg, capacity, traceOf, s) == Spawn(sims, i + 1, pkg, capacity, traceOf, s);
      SpawnTokens(sims, i + 1, pkg, capacity, traceOf, s);
    }
  }

  /** Every token taken and not given back is held, and nobody quit every instance. */
  predicate Balanced(s: FleetRun) {
    Count(s.events, Acquires) == Count(s.events, Releases) + s.held && Count(s.events, QuitAlls) == 0
  }

  lemma JoinedBalanced(s: FleetRun, id: string, d: Run)
    requires Balanced(s)
    requires Count(d.events, Acquires) == Count(d.events, Releases) + (if d.exit.Running? then 1 else 0)
    requires Count(d.events, QuitAlls) == 0
    ensures Balanced(Joined(s, id, d))
  {
    CountAppend(s.events, d.events);
  }

  lemma {:induction false} EligibleIdsNoZero(sims: seq<LeiDian.LDSimulator>, i: nat)
    requires i <= |sims|
    ensures "0" !in EligibleIds(sims, i)
    ensures |EligibleIds(sims, i)| == |sims| - i - CountZeroIds(sims, i)
    decreases |sims| - i
  {
    if i < |sims| {
      EligibleIdsNoZero(sims, i + 1);
    }
  }

  function CountZeroIds(sims: seq<LeiDian.LDSimulator>, i: nat): nat
    requires i <= |sims|
    decreases |sims| - i
  {
    if i == |sims| then 0 else (if sims[i].id == "0" then 1 else 0) + CountZeroIds(sims, i + 1)
  }

  /** `main` launches exactly one driver per listed record whose id is not
      "0" and none for "0"; if the listing fails it launches nothing and
      issues nothing; `quitall` is issued once, as the last event, exactly
      when every driver has returned, and never otherwise (a deadlock
      included). */
  lemma MainShape(listing: Option<string>, maxConcurrency: int, pkg: string,
                  traceOf: nat -> seq<Oracle>, t: Sqlite.Table)
    ensures var (outcome, r) := Main(listing, maxConcurrency, pkg, traceOf, t);
      (listing.None? <==> outcome == ListingFailed)
      && (outcome == ChannelPanic <==> listing.Some? && maxConcurrency < 0)
      && (outcome in {ListingFailed, ChannelPanic} ==> r.events == [] && r.launched == [])
      && (listing.Some? && maxConcurrency >= 0 ==>
            r.launched == EligibleIds(LeiDian.Parse(listing.value), 0) && "0" !in r.launched
            && |r.launched| == |LeiDian.Parse(listing.value)| - CountZeroIds(LeiDian.Parse(listing.value), 0)
            && r.held <= maxConcurrency)
      && Count(r.events, QuitAlls) == (if outcome == AllReturned then 1 else 0)
      && Count(r.events, Acquires) == Count(r.events, Releases) + r.held
      && (outcome in {AllReturned, StillWaiting} ==> (outcome == AllReturned <==> AllAborted(r.exits)))
      && (outcome == AllReturned ==> r.events[|r.events| - 1] == QuitAll && r.held == 0)
  {
    var empty := FleetRun([], t, 0, [], []);
    if listing.Some? && maxConcurrency >= 0 {
      var sims := LeiDian.Parse(listing.value);
      var s := Spawn(sims, 0, pkg, maxConcurrency, traceOf, empty);
      SpawnShape(sims, 0, pkg, maxConcurrency, traceOf, empty);
      EligibleIdsNoZero(sims, 0);
      if maxConcurrency == 0 && s.launched != [] {
        assert Main(listing, maxConcurrency, pkg, traceOf, t) == (Deadlock, s);
        SpawnNoRoom(sims, 0, pkg, traceOf, empty);
        return;
      }
      assert Main(listing, maxConcurrency, pkg, traceOf, t) == Finish(s);
      SpawnTokens(sims, 0, pkg, maxConcurrency, traceOf, empty);
      FinishShape(s);
    } else {
      assert Main(listing, maxConcurrency, pkg, traceOf, t).1 == empty;
    }
  }


  /** A channel with no room deadlocks `main` exactly when some record
      gets a driver: every driver is blocked on its first send, none
      issues anything, and no token is held. */
  lemma MainDeadlock(listing: Option<string>, maxConcurrency: int, pkg: string,
                     traceOf: nat -> seq<Oracle>, t: Sqlite.Table)
    ensures var (outcome, r) := Main(listing, maxConcurrency, pkg, traceOf, t);
      (outcome == Deadlock <==>
         listing.Some? && maxConcurrency == 0 && EligibleIds(LeiDian.Parse(listing.value), 0) != [])
      && (outcome == Deadlock ==> r.events == [] && r.held == 0 && AllBlocked(r.exits))
  {
    var empty := FleetRun([], t, 0, [], []);
    if listing.Some? && maxConcurrency >= 0 {
      var sims := LeiDian.Parse(listing.value);
      var s := Spawn(sims, 0, pkg, maxConcurrency, traceOf, empty);
      SpawnShape(sims, 0, pkg, maxConcurrency, traceOf, empty);
      if maxConcurrency == 0 && s.launched != [] {
        assert Main(listing, maxConcurrency, pkg, traceOf, t) == (Deadlock, s);
        SpawnNoRoom(sims, 0, pkg, traceOf, empty);
      } else {
        assert Main(listing, maxConcurrency, pkg, traceOf, t) == Finish(s);
      }
    }
  }

  predicate AllBlocked(exits: seq<Exit>) {
    forall k :: 0 <= k < |exits| ==> exits[k].Blocked?
  }

  /** With no room in the channel, no driver gets a token: each one is
      blocked on its first send and issues nothing. */
  lemma {:induction false} SpawnNoRoom(sims: seq<LeiDian.LDSimulator>, i: nat, pkg: string,
                                       traceOf: nat -> seq<Oracle>, s: FleetRun)
    requires i <= |sims| && s.held == 0 && AllBlocked(s.exits)
    ensures var r := Spawn(sims, i, pkg, 0, traceOf, s);
      r.events == s.events && r.table == s.table && r.held == 0 && AllBlocked(r.exits)
    decreases |sims| - i
  {
    if i < |sims| && sims[i].id != "0" {
      var d := Drive(sims[i].id, pkg, false, traceOf(i), s.table);
      var s' := Joined(s, sims[i].id, d);
      assert d == Run([], s.table, Blocked);
      assert s'.events == s.events;
      assert Spawn(sims, i, pkg, 0, traceOf, s) == Spawn(sims, i + 1, pkg, 0, traceOf, s');
      SpawnNoRoom(sims, i + 1, pkg, traceOf, s');
    } else if i < |sims| {
      assert Spawn(sims, i, pkg, 0, traceOf, s) == Spawn(sims, i + 1, pkg, 0, traceOf, s);
      SpawnNoRoom(sims, i + 1, pkg, traceOf, s);
    }
  }

  lemma {:induction false} HoldingNone(exits: seq<Exit>)
    requires AllAborted(exits)
    ensures Holding(exits) == 0
  {
    if exits != [] {
      HoldingNone(exits[1..]);
    }
  }

  // ---------------------------------------------------------------------
  // The program state

  class Fleet {
    /** The database handle shared by all drivers. */
    var store: Sqlite.ImeiStore
    /** The capacity of the semaphore channel and the tokens in it. */
    var capacity: nat
    var held: nat
    /** Every command, pause and token operation so far. */
    var events: seq<Event>

    ghost predicate Valid()
      reads this, store
    {
      store.Valid() && held <= capacity
    }

    constructor (store: Sqlite.ImeiStore)
      requires store.Valid()
      ensures Valid() && this.store == store && capacity == 0 && held == 0 && events == []
    {
      this.store := store;
      capacity := 0;
      held := 0;
      events := [];
    }

    /** Iteration `count` up to the IMEI read. */
    method Prepare(id: string, pkg: string, count: nat, o: Oracle) returns (failed: Option<Stage>)
      modifies this`events
      ensures events == old(events) + Front(id, pkg, count, o).events && failed == Front(id, pkg, count, o).failed
    {
      ghost var e0 := events;
      events := events + [Modify(id)];
      if !o.modifyOk {
        return Some(ModifyFailed);
      }
      if count > 1 {
        events := events + [Sleep(Settle)];
      }
      events := events + [Start(id)];
      ghost var started := events;
      assert started == e0 + Started(id, count);
      if !o.startOk {
        return Some(StartFailed);
      }
      events := events + [BootWait(id)];
      var isStart := o.booted;
      if isStart {
        events := events + [Sleep(PreLaunch), RunApp(id, pkg)];
        if !o.runAppOk {
          Append3(e0, Started(id, count), [BootWait(id), Sleep(PreLaunch), RunApp(id, pkg)]);
          return Some(RunAppFailed);
        }
        events := events + [Sleep(Warmup)];
      }
      events := events + [GetProp(id)];
      Append3(e0, Started(id, count), events[|started|..]);
      return None;
    }

    /** The rest of an iteration once `imei` was read. */
    method Record(id: string, imei: string, o: Oracle) returns (failed: Option<Stage>)
      requires Valid()
      modifies this`events, store
      ensures Valid()
      ensures var b := Back(id, imei, o, old(store.Value()));
        events == old(events) + b.events && store.Value() == b.table && failed == b.failed
    {
      var verdict := LeiDian.IsValidIMEI(imei);
      events := events + AdbEvents(verdict.actions);
      if verdict.valid {
        events := events + [ExistsQuery(imei)];
        var found, er := store.CheckIMEIExists(imei, o.existsFails);
        if er.Some? {
          return Some(ExistsFailed);
        }
        if !found {
          events := events + [Insert(id, imei)];
          var errr := store.InsertStoreIMEI(id, imei, o.insertFails);
          if errr.Some? {
            return Some(Stage.InsertFailed);
          }
        }
      }
      events := events + [Quit(id)];
      return None;
    }

    /** One iteration of the loop of `HandleAutoImei`, without the token
        release that follows a failure. */
    method Iterate(id: string, pkg: string, count: nat, o: Oracle) returns (failed: Option<Stage>)
      requires Valid()
      modifies this`events, store
      ensures Valid()
      ensures var c := RunCycle(id, pkg, count, o, old(store.Value()));
        events == old(events) + c.events && store.Value() == c.table && failed == c.failed
    {
      ghost var t := store.Value();
      ghost var f := Front(id, pkg, count, o);
      failed := Prepare(id, pkg, count, o);
      if failed.Some? {
        assert RunCycle(id, pkg, count, o, t) == Cycle(f.events, t, f.failed);
        return;
      }
      var prop := LeiDian.GetPropImei(o.prop);
      if prop.Err? {
        assert RunCycle(id, pkg, count, o, t) == Cycle(f.events, t, Some(GetPropFailed));
        return Some(GetPropFailed);
      }
      ghost var b := Back(id, prop.value, o, t);
      assert RunCycle(id, pkg, count, o, t) == Cycle(f.events + b.events, b.table, b.failed);
      failed := Record(id, prop.value, o);
      Append3(old(events), f.events, b.events);
    }

    /** `HandleAutoImei` for one simulator, over the oracles of its iterations. */
    method HandleAutoImei(simulator: LeiDian.LDSimulator, pkg: string, trace: seq<Oracle>) returns (exit: Exit)
      requires Valid()
      modifies this`events, this`held, store
      ensures Valid()
      ensures var d := Drive(simulator.id, pkg, old(held) < capacity, trace, old(store.Value()));
        exit == d.exit && events == old(events) + d.events && store.Value() == d.table
        && held == old(held) + (if d.exit.Running? then 1 else 0)
    {
      var simulatorId := simulator.id;
      if held >= capacity {
        return Blocked;
      }
      ghost var r := Loop(simulatorId, pkg, 0, trace, store.Value());
      ghost var before := events;
      held := held + 1;
      events := events + [Acquire(simulatorId)];
      exit := Repeat(simulatorId, pkg, trace);
      Append3(before, [Acquire(simulatorId)], r.events);
    }

    /** The endless loop of `HandleAutoImei`, run by a driver holding a
        token, over the oracles of its iterations. */
    method Repeat(id: string, pkg: string, trace: seq<Oracle>) returns (exit: Exit)
      requires Valid() && held >= 1
      modifies this`events, this`held, store
      ensures Valid()
      ensures var r := Loop(id, pkg, 0, trace, old(store.Value()));
        exit == r.exit && events == old(events) + r.events && store.Value() == r.table
        && held == old(held) - (if r.exit.Running? then 0 else 1)
    {
      ghost var r := Loop(id, pkg, 0, trace, store.Value());
      ghost var past: seq<Event> := [];
      var count := 0;
      while count < |trace|
        invariant count <= |trace|
        invariant Valid() && held == old(held)
        invariant events == old(events) + past
        invariant var rest := Loop(id, pkg, count, trace[count..], store.Value());
          past + rest.events == r.events && rest.table == r.table && rest.exit == r.exit
      {
        assert trace[count..][0] == trace[count] && trace[count..][1..] == trace[count + 1..];
        ghost var before := events;
        ghost var c := RunCycle(id, pkg, count + 1, trace[count], store.Value());
        count := count + 1;
        var failed := Iterate(id, pkg, count, trace[count - 1]);
        Append3(old(events), past, c.events);
        if failed.Some? {
          Append3(past, c.events, [Release(id)]);
          Append3(old(events), past + c.events, [Release(id)]);
          events := events + [Release(id)];
          held := held - 1;
          return Aborted(count, failed.value);
        }
        ghost var rest := Loop(id, pkg, count, trace[count..], store.Value());
        Append3(past, c.events, rest.events);
        past := past + c.events;
      }
      assert trace[count..] == [];
      return Running(count);
    }

    /** `main` after the database is open: lists the simulators, makes the
        semaphore channel, starts a driver for every id but "0", waits for
        them and quits every simulator. */
    method LaunchAll(listing: Option<string>, maxConcurrency: int, pkg: string, traceOf: nat -> seq<Oracle>)
      returns (outcome: Outcome, launched: seq<string>)
      requires Valid()
      modifies this`events, this`held, this`capacity, store
      ensures Valid()
      ensures var m := Main(listing, maxConcurrency, pkg, traceOf, old(store.Value()));
        outcome == m.0 && launched == m.1.launched
        && events == old(events) + m.1.events && store.Value() == m.1.table
      ensures var m := Main(listing, maxConcurrency, pkg, traceOf, old(store.Value()));
        if outcome in {ListingFailed, ChannelPanic} then capacity == old(capacity) && held == old(held)
        else capacity == maxConcurrency && held == m.1.held
    {
      var simulators := LeiDian.GetSimulators(listing);
      if simulators.Err? {
        return ListingFailed, [];
      }
      if maxConcurrency < 0 {
        return ChannelPanic, [];
      }
      var sims := simulators.value;
      ghost var s := Spawn(sims, 0, pkg, maxConcurrency, traceOf, FleetRun([], store.Value(), 0, [], []));
      ghost var m := Main(listing, maxConcurrency, pkg, traceOf, store.Value());
      capacity := maxConcurrency;
      held := 0;
      var exits;
      launched, exits := SpawnAll(sims, pkg, traceOf);
      if maxConcurrency == 0 && launched != [] {
        assert m == (Deadlock, s);
        return Deadlock, launched;
      }
      assert m == Finish(s);
      if AllAborted(exits) {
        Append3(old(events), s.events, [QuitAll]);
        events := events + [QuitAll];
        return AllReturned, launched;
      }
      return StillWaiting, launched;
    }

    /** The range loop of `main`: one driver for every record whose id is
        not "0", with no token held at the start. */
    method SpawnAll(sims: seq<LeiDian.LDSimulator>, pkg: string, traceOf: nat -> seq<Oracle>)
      returns (launched: seq<string>, exits: seq<Exit>)
      requires Valid() && held == 0
      modifies this`events, this`held, store
      ensures Valid()
      ensures var s := Spawn(sims, 0, pkg, capacity, traceOf, FleetRun([], old(store.Value()), 0, [], []));
        launched == s.launched && exits == s.exits && held == s.held
        && events == old(events) + s.events && store.Value() == s.table
    {
      ghost var final := Spawn(sims, 0, pkg, capacity, traceOf, FleetRun([], store.Value(), 0, [], []));
      launched := [];
      exits := [];
      ghost var log: seq<Event> := [];
      var i := 0;
      while i < |sims|
        invariant i <= |sims|
        invariant Valid()
        invariant events == old(events) + log
        invariant Spawn(sims, i, pkg, capacity, traceOf, FleetRun(log, store.Value(), held, launched, exits)) == final
      {
        if sims[i].id != "0" {
          ghost var before := FleetRun(log, store.Value(), held, launched, exits);
          ghost var d := Drive(sims[i].id, pkg, held < capacity, traceOf(i), store.Value());
          assert Spawn(sims, i, pkg, capacity, traceOf, before)
              == Spawn(sims, i + 1, pkg, capacity, traceOf, Joined(before, sims[i].id, d));
          var exit := HandleAutoImei(sims[i], pkg, traceOf(i));
          Append3(old(events), log, d.events);
          log := log + d.events;
          launched := launched + [sims[i].id];
          exits := exits + [exit];
          assert FleetRun(log, store.Value(), held, launched, exits) == Joined(before, sims[i].id, d);
        } else {
          assert Spawn(sims, i, pkg, capacity, traceOf, FleetRun(log, store.Value(), held, launched, exits))
              == Spawn(sims, i + 1, pkg, capacity, traceOf, FleetRun(log, store.Value(), held, launched, exits));
        }
        i := i + 1;
      }
    }
  }
}
