/**
 Batch installation of Magisk modules over adb (src/beetroot/backends/adb.py:461-663):
 one preflight for the device, then each module is validated on the host, pushed,
 installed and its temp file removed. The device answers each command as it likes.
 */
module AdbInstall {
  import opened Prelude
  import FridaDownload

  /** The commands sent to the device, with how each went; `n` is the batch position. */
  datatype Event =
    | RootProbe(ok: bool)
    | MagiskProbe(ok: bool)
    | Push(n: nat, ok: bool)
    | Install(n: nat, ok: bool)
    | Remove(n: nat, ok: bool)
    | Reachable(ok: bool)

  datatype Row = Row(source: string, ok: bool)

  datatype Report =
    | Complete(rows: seq<Row>)
    | Aborted(rows: seq<Row>, skipped: int)
    | PreflightFailed
    | AdbMissing
    | LengthMismatch

  datatype One = Installed | HostFailure | AdbFailure

  /** A batch: the sources, their pinned digests, and the zips that exist on the host with their digests. */
  datatype Batch = Batch(sources: seq<string>, pinned: seq<Option<string>>, zips: map<string, string>)

  ghost predicate Paired(b: Batch) { |b.pinned| == |b.sources| }

  /** A module that may be pushed: an existing zip whose digest, when pinned, is the pinned one. */
  predicate Sendable(b: Batch, k: int)
    requires |b.pinned| == |b.sources|
  {
    0 <= k < |b.sources| && b.sources[k] in b.zips && FridaDownload.Matches(b.zips[b.sources[k]], b.pinned[k])
  }

  // ---- What the log of a batch promises ------------------------------------------------

  /** Nothing is pushed before both probes passed, nor unless the host check passed. */
  ghost predicate Guarded(b: Batch, log: seq<Event>)
    requires Paired(b)
  {
    forall i | 0 <= i < |log| && log[i].Push? ::
      i >= 2 && log[0] == RootProbe(true) && log[1] == MagiskProbe(true) && Sendable(b, log[i].n)
  }

  /** A push that went through is followed at once by the install and by the removal of its temp file. */
  ghost predicate Tidy(log: seq<Event>) {
    forall i | 0 <= i < |log| && log[i].Push? && log[i].ok ::
      i + 2 < |log| && log[i + 1].Install? && log[i + 1].n == log[i].n && log[i + 2].Remove? && log[i + 2].n == log[i].n
  }

  /** Nothing is installed, or removed, but what the command before it put there. */
  ghost predicate Earned(log: seq<Event>) {
    && (forall i | 0 <= i < |log| && log[i].Install? :: i >= 1 && log[i - 1] == Push(log[i].n, true))
    && (forall i | 0 <= i < |log| && log[i].Remove? :: i >= 1 && log[i - 1].Install? && log[i - 1].n == log[i].n)
  }

  /** Positions are pushed in request order, each at most once, and all before `bound`. */
  ghost predicate InOrder(log: seq<Event>, bound: nat) {
    && (forall i | 0 <= i < |log| && log[i].Push? :: log[i].n < bound)
    && forall i, j | 0 <= i < j < |log| && log[i].Push? && log[j].Push? :: log[i].n < log[j].n
  }

  /** One row per attempted source, in request order, marked ok exactly when its install went through. */
  ghost predicate Accounted(b: Batch, log: seq<Event>, rows: seq<Row>) {
    && |rows| <= |b.sources|
    && (forall k | 0 <= k < |rows| :: rows[k].source == b.sources[k] && (rows[k].ok <==> Install(k, true) in log))
    && (forall i | 0 <= i < |log| && log[i].Install? :: log[i].n < |rows|)
  }

  ghost predicate Sound(b: Batch, log: seq<Event>, rows: seq<Row>)
    requires Paired(b)
  {
    Guarded(b, log) && Tidy(log) && Earned(log) && InOrder(log, |rows|) && Accounted(b, log, rows)
  }

  /** A failed push, or a failed install once its temp file was tried, is answered by asking whether the device is still
      there, and nothing else is. */
  ghost predicate Probed(log: seq<Event>) {
    && (forall i | 0 <= i < |log| && log[i].Push? && !log[i].ok :: i + 1 < |log| && log[i + 1].Reachable?)
    && (forall i | 0 <= i < |log| && log[i].Install? && !log[i].ok :: i + 2 < |log| && log[i + 2].Reachable?)
    && (forall i | 0 <= i < |log| && log[i].Reachable? :: AfterFailure(log, i))
  }

  predicate AfterFailure(log: seq<Event>, i: nat)
    requires i < |log|
  {
    (i >= 1 && log[i - 1].Push? && !log[i - 1].ok) || (i >= 2 && log[i - 2].Install? && !log[i - 2].ok)
  }

  /** The root probe failed, or it passed and the magisk probe failed; then the device was looked for. */
  ghost predicate ProbeFailed(log: seq<Event>) {
    exists online: bool ::
      log == [RootProbe(false), Reachable(online)] || log == [RootProbe(true), MagiskProbe(false), Reachable(online)]
  }

  /** Only a failed push or a failed removal can leave a temp file behind. */
  ghost predicate Leftover(log: seq<Event>, n: nat) { Push(n, false) in log || Remove(n, false) in log }

  ghost predicate Clean(before: set<nat>, after: set<nat>, log: seq<Event>) {
    forall n | n in after && n !in before :: Leftover(log, n)
  }

  /** The commands one module may cause, and how it went. */
  ghost predicate Segment(b: Batch, k: nat, one: One, events: seq<Event>)
    requires Paired(b)
  {
    match one
    case HostFailure => events == [] && !Sendable(b, k)
    case Installed => Sendable(b, k) && exists gone :: events == [Push(k, true), Install(k, true), Remove(k, gone)]
    case AdbFailure => Sendable(b, k) && (events == [Push(k, false)]
                       || exists gone :: events == [Push(k, true), Install(k, false), Remove(k, gone)])
  }

  /** The shape of a segment, seen from any place in the longer log. */
  ghost predicate Shape(k: nat, one: One, events: seq<Event>) {
    && |events| <= 3
    && (|events| > 0 ==> events[0].Push? && events[0].n == k && events[0].ok == (|events| == 3))
    && (|events| > 1 ==>
          |events| == 3 && events[1].Install? && events[1].n == k && events[2].Remove? && events[2].n == k)
    && (one.Installed? <==> |events| == 3 && events[1].ok)
  }

  lemma SegmentShape(b: Batch, k: nat, one: One, events: seq<Event>)
    requires Paired(b) && Segment(b, k, one, events)
    ensures Shape(k, one, events) && (events != [] ==> Sendable(b, k))
  {
  }

  lemma Grows(b: Batch, log: seq<Event>, k: nat, one: One, events: seq<Event>)
    requires Paired(b) && Guarded(b, log) && Tidy(log) && Earned(log) && InOrder(log, k)
    requires |log| >= 2 && log[0] == RootProbe(true) && log[1] == MagiskProbe(true)
    requires Shape(k, one, events) && (events != [] ==> Sendable(b, k))
    ensures Guarded(b, log + events) && Tidy(log + events) && Earned(log + events) && InOrder(log + events, k + 1)
  {
    hide Sendable;
    var more := log + events;
    assert forall i | 0 <= i < |log| :: more[i] == log[i];
    assert forall i | |log| <= i < |more| :: more[i] == events[i - |log|];
  }

  lemma RowsGrow(b: Batch, log: seq<Event>, rows: seq<Row>, one: One, events: seq<Event>)
    requires Accounted(b, log, rows) && |rows| < |b.sources| && Shape(|rows|, one, events)
    ensures Accounted(b, log + events, rows + [Row(b.sources[|rows|], one.Installed?)])
  {
    var k, more, all := |rows|, log + events, rows + [Row(b.sources[|rows|], one.Installed?)];
    forall i | 0 <= i < |all|
      ensures all[i].source == b.sources[i] && (all[i].ok <==> Install(i, true) in more)
    {
      assert Install(i, true) in more <==> Install(i, true) in log || Install(i, true) in events;
      assert Install(i, true) in events <==> i == k && |events| == 3 && events[1].ok;
    }
  }

  /** A module's commands extend a sound log to a sound log with its row. */
  lemma SegmentKeepsSound(b: Batch, log: seq<Event>, rows: seq<Row>, one: One, events: seq<Event>)
    requires Paired(b) && Sound(b, log, rows) && |rows| < |b.sources|
    requires |log| >= 2 && log[0] == RootProbe(true) && log[1] == MagiskProbe(true)
    requires Segment(b, |rows|, one, events)
    ensures Sound(b, log + events, rows + [Row(b.sources[|rows|], one.Installed?)])
  {
    SegmentShape(b, |rows|, one, events);
    Grows(b, log, |rows|, one, events);
    RowsGrow(b, log, rows, one, events);
  }

  lemma ReachableKeepsSound(b: Batch, log: seq<Event>, rows: seq<Row>, ok: bool)
    requires Paired(b) && Sound(b, log, rows)
    ensures Sound(b, log + [Reachable(ok)], rows)
  {
    hide Sendable;
    var more := log + [Reachable(ok)];
    assert forall i | 0 <= i < |log| :: more[i] == log[i];
    assert more[|log|] == Reachable(ok);
    forall k ensures Install(k, true) in more <==> Install(k, true) in log {}
  }

  lemma ProbedJoins(log: seq<Event>, tail: seq<Event>)
    requires Probed(log) && Probed(tail)
    ensures Probed(log + tail)
  {
    var more := log + tail;
    assert forall i | 0 <= i < |log| :: more[i] == log[i];
    assert forall i | |log| <= i < |more| :: more[i] == tail[i - |log|];
    forall i | 0 <= i < |more| && more[i].Reachable? ensures AfterFailure(more, i) {
      assert if i < |log| then AfterFailure(log, i) else AfterFailure(tail, i - |log|);
    }
  }

  /** A module's commands and what is asked after them. */
  lemma SegmentProbed(b: Batch, k: nat, one: One, events: seq<Event>, ok: bool)
    requires Paired(b) && Segment(b, k, one, events)
    ensures if one.AdbFailure? then Probed(events + [Reachable(ok)]) else Probed(events)
  {
    hide Sendable;
    if one.AdbFailure? && events != [Push(k, false)] {
      var gone :| events == [Push(k, true), Install(k, false), Remove(k, gone)];
      assert events + [Reachable(ok)] == [Push(k, true), Install(k, false), Remove(k, gone), Reachable(ok)];
    } else if one.AdbFailure? {
      assert events + [Reachable(ok)] == [Push(k, false), Reachable(ok)];
    }
  }

  // ---- The device --------------------------------------------------------------------------

  class AdbDevice {
    /** Commands of the current call, and temp zips on the device by batch position. */
    var log: seq<Event>
    var temps: set<nat>

    /** A command that moves no temp file. */
    method Send(e: Event) returns (ok: bool)
      modifies this`log
      ensures log == old(log) + [e.(ok := ok)]
    {
      ok := *;
      log := log + [e.(ok := ok)];
    }

    /** A push that fails may still have left part of the file. */
    method PushZip(n: nat) returns (ok: bool)
      modifies this
      ensures log == old(log) + [Push(n, ok)] && old(temps) <= temps <= old(temps) + {n}
    {
      ok := *;
      var partly: bool := *;
      log := log + [Push(n, ok)];
      if ok || partly { temps := temps + {n}; }
    }

    method RemoveZip(n: nat) returns (ok: bool)
      modifies this
      ensures log == old(log) + [Remove(n, ok)] && temps == if ok then old(temps) - {n} else old(temps)
    {
      ok := *;
      log := log + [Remove(n, ok)];
      if ok { temps := temps - {n}; }
    }

    method AutoInstallOne(b: Batch, index: nat) returns (one: One, ghost events: seq<Event>)
      requires Paired(b) && index < |b.sources|
      modifies this
      ensures log == old(log) + events && Segment(b, index, one, events)
      ensures forall n | n in temps && n !in old(temps) :: Leftover(events, n)
    {
      events := [];
      if b.sources[index] !in b.zips { return HostFailure, events; }
      if !FridaDownload.Matches(b.zips[b.sources[index]], b.pinned[index]) { return HostFailure, events; }
      var pushed := PushZip(index);
      if !pushed { return AdbFailure, [Push(index, false)]; }
      var installed := Send(Install(index, true));
      var gone := RemoveZip(index);
      events := [Push(index, true), Install(index, installed), Remove(index, gone)];
      assert log == old(log) + events;
      assert events[2] == Remove(index, gone);
      return if installed then Installed else AdbFailure, events;
    }

    method Preflight() returns (ok: bool)
      modifies this`log
      ensures ok ==> log == old(log) + [RootProbe(true), MagiskProbe(true)]
      ensures !ok ==> old(log) <= log && ProbeFailed(log[|old(log)|..])
    {
      ghost var start := log;
      var root := Send(RootProbe(true));
      if !root {
        var online := Send(Reachable(true));
        assert log == start + [RootProbe(false), Reachable(online)];
        assert log[|start|..] == [RootProbe(false), Reachable(online)];
        return false;
      }
      var magisk := Send(MagiskProbe(true));
      if !magisk {
        var online := Send(Reachable(true));
        assert log == start + [RootProbe(true), MagiskProbe(false), Reachable(online)];
        assert log[|start|..] == [RootProbe(true), MagiskProbe(false), Reachable(online)];
        return false;
      }
      assert old(log) + [RootProbe(true)] + [MagiskProbe(true)] == old(log) + [RootProbe(true), MagiskProbe(true)];
      return true;
    }

    /** For every device behaviour. A report is complete exactly when the device was never found gone. */
    method AutoInstallModules(adbOnPath: bool, sources: seq<string>, digests: Option<seq<Option<string>>>,
                              zips: map<string, string>)
      returns (report: Report)
      modifies this
      ensures report.AdbMissing? <==> !adbOnPath
      ensures report.LengthMismatch? <==> adbOnPath && digests.Some? && |digests.value| != |sources|
      ensures report.AdbMissing? || report.LengthMismatch? ==> log == []
      ensures report.PreflightFailed? ==> ProbeFailed(log)
      ensures report.Complete? || report.Aborted? ==>
                && (digests.Some? ==> |digests.value| == |sources|)
                && Sound(Batch(sources, if digests.Some? then digests.value else seq(|sources|, _ => None), zips),
                         log, report.rows)
      ensures report.Complete? || report.Aborted? ==> Probed(log)
      ensures report.Complete? ==> |report.rows| == |sources| && Reachable(false) !in log
      ensures report.Aborted? ==> && |report.rows| + report.skipped == |sources| && report.skipped >= 0
                                  && report.rows != [] && !report.rows[|report.rows| - 1].ok
                                  && log != [] && log[|log| - 1] == Reachable(false)
      ensures Clean(old(temps), temps, log)
    {
      hide Segment, Sound, Clean, Probed, FridaDownload.Matches;
      log := [];
      if !adbOnPath {
        NothingLeft(temps, log);
        return AdbMissing;
      }
      if digests.Some? && |digests.value| != |sources| {
        NothingLeft(temps, log);
        return LengthMismatch;
      }
      var b := Batch(sources, if digests.Some? then digests.value else seq(|sources|, _ => None), zips);
      var ready := Preflight();
      NothingLeft(temps, log);
      if !ready {
        assert log[0..] == log;
        return PreflightFailed;
      }
      assert log == [RootProbe(true), MagiskProbe(true)];
      ReadySound(b);
      ReadyProbed();
      var rows: seq<Row> := [];
      for index := 0 to |sources|
        invariant |rows| == index && Sound(b, log, rows)
        invariant |log| >= 2 && log[0] == RootProbe(true) && log[1] == MagiskProbe(true)
        invariant Reachable(false) !in log && Clean(old(temps), temps, log) && Probed(log)
      {
        ghost var before, was := log, temps;
        var one, events := AutoInstallOne(b, index);
        SegmentKeepsSound(b, before, rows, one, events);
        rows := rows + [Row(sources[index], one.Installed?)];
        SegmentChecksNothing(b, index, one, events);
        CleanGrows(old(temps), was, temps, before, events);
        SegmentProbed(b, index, one, events, true);
        if !one.AdbFailure? {
          ProbedJoins(before, events);
        } else {
          ghost var sent := log;
          var online := Send(Reachable(true));
          SegmentProbed(b, index, one, events, online);
          ProbedJoins(before, events + [Reachable(online)]);
          assert log == before + (events + [Reachable(online)]);
          ReachableKeepsSound(b, sent, rows, online);
          CleanGrows(old(temps), temps, temps, sent, [Reachable(online)]);
          if !online { return Aborted(rows, |sources| - index - 1); }
        }
      }
      return Complete(rows);
    }
  }

  lemma NothingLeft(temps: set<nat>, log: seq<Event>)
    ensures Clean(temps, temps, log)
  {
  }

  lemma ReadySound(b: Batch)
    requires Paired(b)
    ensures Sound(b, [RootProbe(true), MagiskProbe(true)], [])
  {
  }

  lemma ReadyProbed()
    ensures Probed([RootProbe(true), MagiskProbe(true)])
  {
  }

  lemma SegmentChecksNothing(b: Batch, k: nat, one: One, events: seq<Event>)
    requires Paired(b) && Segment(b, k, one, events)
    ensures forall ok :: Reachable(ok) !in events
  {
  }

  lemma CleanGrows(start: set<nat>, was: set<nat>, now: set<nat>, log: seq<Event>, events: seq<Event>)
    requires Clean(start, was, log) && forall n | n in now && n !in was :: Leftover(events, n)
    ensures Clean(start, now, log + events)
  {
    forall n | n in now && n !in start ensures Leftover(log + events, n) {
      if n in was { assert Leftover(log, n); } else { assert Leftover(events, n); }
    }
  }
}
