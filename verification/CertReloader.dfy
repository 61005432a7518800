/** The certificate cache of pkg/mcp/tls.go, and how stale it can get. */
module CertReloading {
  import opened Basics

  const Minute := 60_000_000_000
  const CertReloadInterval := 5 * Minute

  // A certificate with its key.
  datatype Pair = Pair(cert: string, key: string)

  // What the file system answers during one call: the two stats, the load, and the
  // two stats after the load. None is an error.
  datatype Probe = Probe(
    certStat: Option<int>, keyStat: Option<int>,
    load: Option<Pair>,
    certAfter: Option<int>, keyAfter: Option<int>)

  datatype State = State(cert: Pair, certModTime: int, keyModTime: int, lastCheck: int)

  predicate Due(s: State, now: int) {
    now - s.lastCheck >= CertReloadInterval
  }

  predicate Loads(p: Probe) {
    p.load.Some? && p.certAfter.Some? && p.keyAfter.Some?
  }

  predicate Unchanged(s: State, p: Probe) {
    p.certStat == Some(s.certModTime) && p.keyStat == Some(s.keyModTime)
  }

  // The state after a call at `now`: only a complete load changes what is served.
  function After(s: State, now: int, p: Probe): State {
    if !Due(s, now) then s
    else if p.certStat.None? || p.keyStat.None? || Unchanged(s, p) || !Loads(p) then s.(lastCheck := now)
    else State(p.load.value, p.certAfter.value, p.keyAfter.value, now)
  }

  // ---------- The reloader ----------

  class CertReloader {
    var cert: Pair
    var certModTime: int
    var keyModTime: int
    var lastCheck: int

    function Current(): State
      reads this
    {
      State(cert, certModTime, keyModTime, lastCheck)
    }

    // Made by a complete initial load.
    constructor (p: Probe, now: int)
      requires Loads(p)
      ensures Current() == State(p.load.value, p.certAfter.value, p.keyAfter.value, now)
    {
      cert, certModTime, keyModTime, lastCheck := p.load.value, p.certAfter.value, p.keyAfter.value, now;
    }

    method ReloadLocked(p: Probe, now: int) returns (ok: bool)
      modifies this
      ensures ok == Loads(p)
      ensures Current() == if ok then State(p.load.value, p.certAfter.value, p.keyAfter.value, now) else old(Current())
    {
      if p.load.None? {
        return false;
      }
      if p.certAfter.None? {
        return false;
      }
      if p.keyAfter.None? {
        return false;
      }
      cert := p.load.value;
      certModTime := p.certAfter.value;
      keyModTime := p.keyAfter.value;
      lastCheck := now;
      ok := true;
    }

    method MaybeReload(p: Probe, now: int) returns (ok: bool)
      modifies this
      ensures Current() == After(old(Current()), now, p)
    {
      if now - lastCheck < CertReloadInterval {
        return true;
      }
      lastCheck := now;
      if p.certStat.None? {
        return false;
      }
      if p.keyStat.None? {
        return false;
      }
      if p.certStat.value == certModTime && p.keyStat.value == keyModTime {
        return true;
      }
      ok := ReloadLocked(p, now);
    }

    /** Serves the cached pair, after checking the files when the last check is five minutes old. */
    method GetCertificate(p: Probe, now: int) returns (served: Pair)
      modifies this
      ensures Current() == After(old(Current()), now, p) && served == cert
    {
      if now - lastCheck >= CertReloadInterval {
        var _ := MaybeReload(p, now);
      }
      served := cert;
    }
  }

  // The server fails to start without a complete initial load.
  method NewCertReloader(p: Probe, now: int) returns (r: Option<CertReloader>)
    ensures r.Some? <==> Loads(p)
    ensures r.Some? ==> fresh(r.value)
    ensures r.Some? ==> r.value.Current() == State(p.load.value, p.certAfter.value, p.keyAfter.value, now)
  {
    if !Loads(p) {
      return None;
    }
    var reloader := new CertReloader(p, now);
    r := Some(reloader);
  }

  // ---------- Runs ----------

  // A call reads the clock and makes its first stats at one instant; its load and the
  // stats after it may come later.
  datatype Call = Call(at: int, loadAt: int, statsAt: int, probe: Probe)

  function Run(s: State, calls: seq<Call>): State {
    if calls == [] then s
    else
      var last := calls[|calls| - 1];
      After(Run(s, calls[..|calls| - 1]), last.at, last.probe)
  }

  // Pair and modification times are those of one load.
  ghost predicate FromLoad(s: State, p: Probe) {
    Loads(p) && s.cert == p.load.value && s.certModTime == p.certAfter.value && s.keyModTime == p.keyAfter.value
  }

  /**
    Whatever fails, pair and times always belong together: they are those of the
    initial load or of one complete later one.
   */
  lemma {:induction false} NeverMixed(first: Probe, start: State, calls: seq<Call>)
    requires FromLoad(start, first)
    ensures FromLoad(Run(start, calls), first) || exists c :: c in calls && FromLoad(Run(start, calls), c.probe)
  {
    if calls != [] {
      var front, last := calls[..|calls| - 1], calls[|calls| - 1];
      NeverMixed(first, start, front);
      var before, after := Run(start, front), Run(start, calls);
      if !FromLoad(after, first) {
        if after.(lastCheck := before.lastCheck) == before {
          var c :| c in front && FromLoad(before, c.probe);
          assert c in calls && FromLoad(after, c.probe);
        } else {
          assert last in calls && FromLoad(after, last.probe);
        }
      }
    }
  }

  // ---------- Staleness ----------

  datatype Disk = Disk(pair: Pair, certModTime: int, keyModTime: int)

  // Modification times identify the contents.
  ghost predicate TimesIdentify(disk: int -> Disk) {
    forall t: int, u: int ::
      disk(t).certModTime == disk(u).certModTime && disk(t).keyModTime == disk(u).keyModTime ==>
        disk(t).pair == disk(u).pair
  }

  ghost predicate Reads<T>(read: Option<T>, value: T) {
    read.Some? ==> read.value == value
  }

  // Everything that a call reads, it reads from one state of the disk.
  ghost predicate SeesOneDisk(p: Probe, d: Disk) {
    && Reads(p.certStat, d.certModTime) && Reads(p.keyStat, d.keyModTime) && Reads(p.load, d.pair)
    && Reads(p.certAfter, d.certModTime) && Reads(p.keyAfter, d.keyModTime)
  }

  predicate Succeeds(p: Probe) {
    p.certStat.Some? && p.keyStat.Some? && Loads(p)
  }

  // The check was due and came to a conclusion.
  predicate Checks(s: State, now: int, p: Probe) {
    Due(s, now) && p.certStat.Some? && p.keyStat.Some? && (Unchanged(s, p) || Loads(p))
  }

  // When the files were last successfully checked; `since` is the time of the initial load.
  function LastChecked(s: State, since: int, calls: seq<Call>): int {
    if calls == [] then since
    else
      var front, last := calls[..|calls| - 1], calls[|calls| - 1];
      if Checks(Run(s, front), last.at, last.probe) then last.at else LastChecked(s, since, front)
  }

  ghost predicate InOrder(calls: seq<Call>, since: int) {
    && (forall i :: 0 <= i < |calls| ==> since <= calls[i].at)
    && (forall i, j :: 0 <= i < j < |calls| ==> calls[i].at <= calls[j].at)
  }

  // The pair and the times are the disk's at some instant, and the pair is the disk's at `checked`.
  ghost predicate InStep(s: State, disk: int -> Disk, checked: int) {
    && s.cert == disk(checked).pair
    && exists u: int :: disk(u) == Disk(s.cert, s.certModTime, s.keyModTime)
  }

  lemma StepInStep(s: State, disk: int -> Disk, checked: int, now: int, p: Probe)
    requires TimesIdentify(disk) && InStep(s, disk, checked) && SeesOneDisk(p, disk(now))
    ensures InStep(After(s, now, p), disk, if Checks(s, now, p) then now else checked)
  {
    var u: int :| disk(u) == Disk(s.cert, s.certModTime, s.keyModTime);
    if Checks(s, now, p) {
      if Unchanged(s, p) {
        assert disk(now).pair == disk(u).pair;
      } else {
        assert disk(now) == Disk(p.load.value, p.certAfter.value, p.keyAfter.value);
      }
    }
  }

  /**
    Whatever fails and however often, what is served is what was on disk when the files
    were last successfully checked.
   */
  lemma {:induction false} ServesLastChecked(start: State, since: int, calls: seq<Call>, disk: int -> Disk)
    requires TimesIdentify(disk) && InStep(start, disk, since)
    requires forall c <- calls :: SeesOneDisk(c.probe, disk(c.at))
    ensures InStep(Run(start, calls), disk, LastChecked(start, since, calls))
  {
    if calls != [] {
      var front, last := calls[..|calls| - 1], calls[|calls| - 1];
      ServesLastChecked(start, since, front, disk);
      StepInStep(Run(start, front), disk, LastChecked(start, since, front), last.at, last.probe);
    }
  }

  // Without failures, every check that is due succeeds.
  lemma {:induction false} ChecksKeepUp(start: State, calls: seq<Call>)
    requires InOrder(calls, start.lastCheck) && forall c <- calls :: Succeeds(c.probe)
    ensures Run(start, calls).lastCheck == LastChecked(start, start.lastCheck, calls)
    ensures start.lastCheck <= Run(start, calls).lastCheck
    ensures calls != [] ==>
      calls[|calls| - 1].at - CertReloadInterval < Run(start, calls).lastCheck <= calls[|calls| - 1].at
  {
    if calls != [] {
      ChecksKeepUp(start, calls[..|calls| - 1]);
    }
  }

  /**
    If nothing fails, a certificate served at time t was on disk less than five minutes
    before t, or is on disk right then.
   */
  lemma StalenessBound(first: Probe, loadedAt: int, calls: seq<Call>, disk: int -> Disk)
    requires TimesIdentify(disk) && Loads(first) && SeesOneDisk(first, disk(loadedAt))
    requires InOrder(calls, loadedAt) && calls != []
    requires forall c <- calls :: SeesOneDisk(c.probe, disk(c.at)) && Succeeds(c.probe)
    ensures var start := State(first.load.value, first.certAfter.value, first.keyAfter.value, loadedAt);
            var t := calls[|calls| - 1].at;
            exists u: int :: t - 5 * Minute < u <= t && Run(start, calls).cert == disk(u).pair
  {
    var start := State(first.load.value, first.certAfter.value, first.keyAfter.value, loadedAt);
    assert disk(loadedAt) == Disk(start.cert, start.certModTime, start.keyModTime);
    ServesLastChecked(start, loadedAt, calls, disk);
    ChecksKeepUp(start, calls);
    var u := LastChecked(start, loadedAt, calls);
    assert Run(start, calls).cert == disk(u).pair;
  }

  // ---------- Loads that do not see one disk state ----------

  // Each part of a call reads the disk as it is at its own instant.
  ghost predicate ReadsInTurn(c: Call, disk: int -> Disk) {
    var p := c.probe;
    && c.at <= c.loadAt <= c.statsAt
    && Reads(p.certStat, disk(c.at).certModTime) && Reads(p.keyStat, disk(c.at).keyModTime)
    && Reads(p.load, disk(c.loadAt).pair)
    && Reads(p.certAfter, disk(c.statsAt).certModTime) && Reads(p.keyAfter, disk(c.statsAt).keyModTime)
  }

  // When the pair served was loaded, when its times were recorded, and when those times
  // were last found on disk.
  datatype Marks = Marks(loaded: int, recorded: int, seen: int)

  function MarksAfter(s: State, m: Marks, c: Call): Marks {
    if !Due(s, c.at) || c.probe.certStat.None? || c.probe.keyStat.None? then m
    else if Unchanged(s, c.probe) then m.(seen := c.at)
    else if Loads(c.probe) then Marks(c.loadAt, c.statsAt, c.statsAt)
    else m
  }

  function MarksOf(s: State, m: Marks, calls: seq<Call>): Marks {
    if calls == [] then m
    else
      var front := calls[..|calls| - 1];
      MarksAfter(Run(s, front), MarksOf(s, m, front), calls[|calls| - 1])
  }

  predicate HasTimes(s: State, d: Disk) {
    s.certModTime == d.certModTime && s.keyModTime == d.keyModTime
  }

  ghost predicate Marked(s: State, disk: int -> Disk, m: Marks) {
    s.cert == disk(m.loaded).pair && HasTimes(s, disk(m.recorded)) && HasTimes(s, disk(m.seen))
  }

  lemma {:induction false} RunMarked(start: State, m: Marks, calls: seq<Call>, disk: int -> Disk)
    requires Marked(start, disk, m) && forall c <- calls :: ReadsInTurn(c, disk)
    ensures Marked(Run(start, calls), disk, MarksOf(start, m, calls))
  {
    if calls != [] {
      var front, last := calls[..|calls| - 1], calls[|calls| - 1];
      RunMarked(start, m, front, disk);
      assert last in calls;
    }
  }

  /**
    Whatever each call reads and whatever fails: what is served is what was on disk when
    the recorded times were last found there, exactly when the last load saw the pair
    that its recorded times stand for.
   */
  lemma TornExact(start: State, m: Marks, calls: seq<Call>, disk: int -> Disk)
    requires TimesIdentify(disk) && Marked(start, disk, m) && forall c <- calls :: ReadsInTurn(c, disk)
    ensures var after := MarksOf(start, m, calls);
            Run(start, calls).cert == disk(after.seen).pair <==> disk(after.loaded).pair == disk(after.recorded).pair
  {
    RunMarked(start, m, calls, disk);
    var after := MarksOf(start, m, calls);
    assert disk(after.seen).pair == disk(after.recorded).pair;
  }

  // While the files keep the recorded times nothing is loaded.
  lemma {:induction false} NothingLoaded(s: State, calls: seq<Call>)
    requires forall c <- calls :: Unchanged(s, c.probe)
    ensures Run(s, calls).(lastCheck := s.lastCheck) == s
  {
    if calls != [] {
      var front, last := calls[..|calls| - 1], calls[|calls| - 1];
      NothingLoaded(s, front);
      assert last in calls;
    }
  }

  // Both files are replaced at instant one.
  function Replaced(older: Pair, newer: Pair): int -> Disk {
    t => if t < 1 then Disk(older, 0, 0) else Disk(newer, 1, 1)
  }

  // A start whose load comes before the replacement and whose stats come after it.
  function TornStart(older: Pair, newer: Pair): Call {
    Call(0, 0, 1, Probe(Some(0), Some(0), Some(older), Some(1), Some(1)))
  }

  /**
    Such a start serves the replaced pair for ever: no later call mends it, although
    each of them succeeds and sees one disk state.
   */
  lemma TornLoadStale(older: Pair, newer: Pair, calls: seq<Call>)
    requires older != newer && calls != []
    requires forall c <- calls :: c.at >= 1 && Succeeds(c.probe) && SeesOneDisk(c.probe, Replaced(older, newer)(c.at))
    ensures var disk, first := Replaced(older, newer), TornStart(older, newer);
            var start := State(older, 1, 1, 0);
            var t := calls[|calls| - 1].at;
            && TimesIdentify(disk) && ReadsInTurn(first, disk) && FromLoad(start, first.probe)
            && Run(start, calls).cert == older
            && (t > CertReloadInterval ==>
                  forall u :: t - CertReloadInterval < u <= t ==> disk(u).pair != Run(start, calls).cert)
  {
    NothingLoaded(State(older, 1, 1, 0), calls);
  }

  /** One such call, six minutes later, breaks the five-minute bound. */
  lemma TornLoadBreaksBound() returns (disk: int -> Disk, first: Call, later: Call)
    ensures TimesIdentify(disk) && ReadsInTurn(first, disk) && Loads(first.probe)
    ensures later.at == 6 * Minute && SeesOneDisk(later.probe, disk(later.at)) && Succeeds(later.probe)
    ensures var start := State(first.probe.load.value, first.probe.certAfter.value, first.probe.keyAfter.value, 0);
            !exists u: int :: later.at - 5 * Minute < u <= later.at && Run(start, [later]).cert == disk(u).pair
  {
    var a, b := Pair("a", "a"), Pair("b", "b");
    disk, first := Replaced(a, b), TornStart(a, b);
    later := Call(6 * Minute, 6 * Minute, 6 * Minute, Probe(Some(1), Some(1), Some(b), Some(1), Some(1)));
    TornLoadStale(a, b, [later]);
  }

  /** The bound needs success too: a failed check is not repeated for five minutes. */
  lemma {:induction false} FailureDelays(s: State, failed: Call, calls: seq<Call>)
    requires Due(s, failed.at) && (failed.probe.certStat.None? || failed.probe.keyStat.None? || !Loads(failed.probe))
    requires forall c <- calls :: c.at - failed.at < 5 * Minute
    ensures Run(After(s, failed.at, failed.probe), calls) == s.(lastCheck := failed.at)
  {
    if calls != [] {
      var front, last := calls[..|calls| - 1], calls[|calls| - 1];
      FailureDelays(s, failed, front);
      assert last in calls;
    }
  }
}
