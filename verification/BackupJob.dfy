/** Backup runs over a directory: write, prune by retention, list newest first. */
module BackupJob {
  import opened Prelude
  import opened Calendar
  import opened BackupNames

  import R = Retention

  /** Names to kinds: true for a regular file, false for anything else. */
  type Directory = map<string, bool>

  /** The instant in a name, on the line of microseconds. */
  function StampOf(name: string): Option<int> {
    if ParseName(name).None? then None else Some(Micros(ParseName(name).value))
  }

  /** A backup file of the platform. */
  predicate Own(dir: Directory, name: string) {
    R.Own(StampOf, dir, name)
  }

  /** Own backups whose instant is `days` or more before `now` gone; everything else as it was. */
  function Pruned(dir: Directory, now: Civil, days: nat): Directory {
    R.Pruned(StampOf, dir, Micros(now) - days * DAY)
  }

  predicate Expired(dir: Directory, name: string, now: Civil, days: nat) {
    R.Expired(StampOf, dir, name, Micros(now) - days * DAY)
  }

  /** The field-by-field test the code makes against `now - timedelta(days)`. */
  lemma CutoffTest(stamped: Civil, now: Civil, days: nat)
    requires Valid(stamped) && Valid(now) && Back(now, days).Some?
    ensures Less(stamped, Back(now, days).value) <==> Micros(stamped) < Micros(now) - days * DAY
  {
    BackIs(now, days);
    LessIffMicros(stamped, Back(now, days).value);
  }

  datatype Outcome =
    | DumpFailed
    | WriteFailed
    | TornWrite                      // part of the backup is written, nothing is pruned
    | CutoffOverflow                 // the backup is written, nothing is pruned
    | Done(filename: string, deleted: seq<string>)

  datatype Config = Config(retentionDays: nat)

  predicate Clock(now: Civil) {
    Valid(now) && now.year >= 1000   // strftime pads the year from there on
  }

  // -- one run --------------------------------------------------------------

  ghost predicate Ascending(names: seq<string>) {
    forall i, j :: 0 <= i < j < |names| ==> LexLess(names[i], names[j])
  }

  /** After the first k names: the expired ones among them are gone, in order. */
  ghost predicate PrunedTo(start: Directory, limit: int, names: seq<string>, k: int, entries: Directory,
                           gone: seq<string>)
    requires 0 <= k <= |names|
  {
    && entries == (map n | n in start && n !in gone :: start[n])
    && (forall n :: n in gone <==> n in names[..k] && R.Expired(StampOf, start, n, limit))
    && Ascending(gone)
    && forall i, j :: 0 <= i < |gone| && k <= j < |names| ==> LexLess(gone[i], names[j])
  }

  lemma PrunedToNext(start: Directory, limit: int, names: seq<string>, k: nat, entries: Directory, gone: seq<string>)
    requires k < |names| && PrunedTo(start, limit, names, k, entries, gone)
    requires Ascending(names) && forall n :: n in names ==> n in start
    ensures names[k] in entries && entries[names[k]] == start[names[k]]
    ensures R.Expired(StampOf, start, names[k], limit) ==>
              PrunedTo(start, limit, names, k + 1, entries - {names[k]}, gone + [names[k]])
    ensures !R.Expired(StampOf, start, names[k], limit) ==> PrunedTo(start, limit, names, k + 1, entries, gone)
  {
    NotBefore(names, k);
    assert names[..k + 1] == names[..k] + [names[k]];
    assert names[k] in names;
  }

  lemma PrunedToEnd(start: Directory, limit: int, names: seq<string>, entries: Directory, gone: seq<string>)
    requires PrunedTo(start, limit, names, |names|, entries, gone)
    requires forall n :: n in names <==> n in start
    ensures entries == R.Pruned(StampOf, start, limit)
    ensures forall n :: n in gone <==> R.Expired(StampOf, start, n, limit)
    ensures Ascending(gone)
  {
    assert names[..|names|] == names;
  }

  class BackupDirectory {
    var entries: Directory

    constructor (entries: Directory)
      ensures this.entries == entries
    {
      this.entries := entries;
    }

    /** `sorted(iterdir())`. */
    method SortedNames() returns (names: seq<string>)
      ensures forall n :: n in names <==> n in entries
      ensures forall i, j :: 0 <= i < j < |names| ==> LexLess(names[i], names[j])
    {
      names := [];
      var rest := entries.Keys;
      while rest != {}
        invariant rest <= entries.Keys
        invariant forall n :: n in names <==> n in entries && n !in rest
        invariant forall i, j :: 0 <= i < j < |names| ==> LexLess(names[i], names[j])
        invariant forall i, n :: 0 <= i < |names| && n in rest ==> LexLess(names[i], n)
        decreases rest
      {
        var least := Least(rest);
        names := names + [least];
        rest := rest - {least};
      }
    }

    /** Deletes own backups older than the retention window, oldest name first; nothing else. */
    method Prune(now: Civil, days: nat) returns (deleted: Option<seq<string>>)
      requires Clock(now)
      modifies this
      ensures deleted.Some? <==> Back(now, days).Some?
      ensures deleted.None? ==> entries == old(entries)
      ensures deleted.Some? ==>
                && entries == Pruned(old(entries), now, days)
                && (forall n :: n in deleted.value <==> Expired(old(entries), n, now, days))
                && (forall i, j :: 0 <= i < j < |deleted.value| ==> LexLess(deleted.value[i], deleted.value[j]))
    {
      var cutoff := Back(now, days);
      if cutoff.None? {
        return None;
      }
      var names := SortedNames();
      var gone: seq<string> := [];
      ghost var start, limit := entries, Micros(now) - days * DAY;
      for k := 0 to |names|
        invariant PrunedTo(start, limit, names, k, entries, gone)
      {
        var name := names[k];
        PrunedToNext(start, limit, names, k, entries, gone);
        var expired := IsExpired(name, entries[name], now, days, cutoff.value);
        if expired {
          entries := entries - {name};
          gone := gone + [name];
        }
      }
      PrunedToEnd(start, limit, names, entries, gone);
      return Some(gone);
    }

    /** Whether this entry is ours and past the cutoff. */
    method IsExpired(name: string, isFile: bool, now: Civil, days: nat, cutoff: Civil) returns (expired: bool)
      requires Valid(now) && Back(now, days) == Some(cutoff)
      ensures expired <==> isFile && StampOf(name).Some? && StampOf(name).value < Micros(now) - days * DAY
    {
      var stamped := ParseName(name);
      if stamped.None? || !isFile {
        return false;
      }
      ParsedNameIsFileName(name);
      CutoffTest(stamped.value, now, days);
      return Less(stamped.value, cutoff);
    }

    /** One run: dump, write under the timestamped name, prune. */
    method Run(now: Civil, config: Config, fate: R.Fate) returns (r: Outcome)
      requires Clock(now)
      modifies this
      ensures r == DumpFailed <==> fate.NoDump?
      ensures r == WriteFailed <==> !fate.NoDump? && FileName(now) in old(entries) && !old(entries)[FileName(now)]
      ensures r.DumpFailed? || r.WriteFailed? ==> entries == old(entries)
      ensures r == TornWrite ==> fate.Torn? && entries == old(entries)[FileName(now) := true]
      ensures fate.Torn? ==> r.TornWrite? || r.WriteFailed?
      ensures r.CutoffOverflow? ==>
                Back(now, config.retentionDays).None? && entries == old(entries)[FileName(now) := true]
      ensures r.Done? ==>
                && Back(now, config.retentionDays).Some? && r.filename == FileName(now)
                && var written := old(entries)[FileName(now) := true];
                   entries == Pruned(written, now, config.retentionDays) &&
                   (forall n :: n in r.deleted <==> Expired(written, n, now, config.retentionDays)) &&
                   (forall i, j :: 0 <= i < j < |r.deleted| ==> LexLess(r.deleted[i], r.deleted[j]))
    {
      if fate.NoDump? {
        return DumpFailed;
      }
      var filename := FileName(now);
      if filename in entries && !entries[filename] {
        return WriteFailed;
      }
      entries := entries[filename := true];
      if fate.Torn? {
        return TornWrite;
      }
      var deleted := Prune(now, config.retentionDays);
      return if deleted.None? then CutoffOverflow else Done(filename, deleted.value);
    }

    /** All platform backups, newest first; `listing` is the order the directory happens to give. */
    method ListBackups(listing: seq<string>) returns (backups: seq<string>)
      requires forall n :: n in listing <==> n in entries
      ensures forall n :: n in backups <==> Own(entries, n)
      ensures R.NewestFirst(StampOf, backups)
    {
      backups := [];
      for k := 0 to |listing|
        invariant forall n :: n in backups <==> n in listing[..k] && Own(entries, n)
        invariant R.NewestFirst(StampOf, backups)
      {
        var name := listing[k];
        assert listing[..k + 1] == listing[..k] + [name];
        assert name in listing;
        if ParseName(name).Some? && entries[name] {
          R.InsertSorts(StampOf, name, backups);
          backups := R.Insert(StampOf, name, backups);
        }
      }
      assert listing[..|listing|] == listing;
    }

    /** The named backup, or the newest; None is the RestoreError. */
    method SelectBackup(listing: seq<string>, filename: Option<string>) returns (r: Option<string>)
      requires forall n :: n in listing <==> n in entries
      ensures filename.Some? ==> r == if Own(entries, filename.value) then filename else None
      ensures filename.None? ==> (r.None? <==> forall n :: !Own(entries, n))
      ensures filename.None? && r.Some? ==>
                Own(entries, r.value) && forall n :: Own(entries, n) ==> !R.Older(StampOf, r.value, n)
    {
      var backups := ListBackups(listing);
      if filename.Some? {
        return if filename.value in backups then filename else None;
      }
      if backups == [] {
        return None;
      }
      assert backups[0] in backups;
      forall n | Own(entries, n) ensures !R.Older(StampOf, backups[0], n) {
        assert n in backups;
        var j :| 0 <= j < |backups| && backups[j] == n;
      }
      return Some(backups[0]);
    }
  }

  method Least(names: set<string>) returns (least: string)
    requires names != {}
    ensures least in names && forall n :: n in names && n != least ==> LexLess(least, n)
  {
    var rest := names;
    least :| least in rest;
    rest := rest - {least};
    while rest != {}
      invariant least in names && rest <= names
      invariant forall n :: n in names && n !in rest && n != least ==> LexLess(least, n)
      decreases rest
    {
      var n :| n in rest;
      if LexLess(n, least) {
        forall m | m in names && m !in rest && m != least ensures LexLess(n, m) {
          LexTransitive(n, least, m);
        }
        least := n;
      } else {
        LexTotal(n, least);
      }
      rest := rest - {n};
    }
  }

  /** A sorted name is none of those before it. */
  lemma NotBefore(names: seq<string>, k: nat)
    requires k < |names| && forall i, j :: 0 <= i < j < |names| ==> LexLess(names[i], names[j])
    ensures names[k] !in names[..k]
  {
    LexIrreflexive(names[k]);
  }

  // -- whole histories ------------------------------------------------------

  datatype Attempt = Attempt(now: Civil, fate: R.Fate)

  function RunOf(a: Attempt): R.Run {
    R.Run(FileName(a.now), Micros(a.now), a.fate)
  }

  function RunsOf(attempts: seq<Attempt>): (r: seq<R.Run>)
    ensures |r| == |attempts| && forall i :: 0 <= i < |attempts| ==> r[i] == RunOf(attempts[i])
  {
    seq(|attempts|, i requires 0 <= i < |attempts| => RunOf(attempts[i]))
  }

  /** The directory after the first k attempts. */
  function History(start: Directory, attempts: seq<Attempt>, days: nat, k: nat): Directory
    requires k <= |attempts|
  {
    R.History(StampOf, start, RunsOf(attempts), days * DAY, k)
  }

  /** Attempt i wrote its file. */
  predicate Wrote(start: Directory, attempts: seq<Attempt>, days: nat, i: nat)
    requires i < |attempts|
  {
    R.Wrote(StampOf, start, RunsOf(attempts), days * DAY, i)
  }

  lemma OverflowPrunesNothing(dir: Directory, now: Civil, days: nat)
    requires Valid(now) && Back(now, days).None?
    ensures Pruned(dir, now, days) == dir
  {
    BackIs(now, days);
    TimeOrder(now, now);
    forall n | n in dir ensures !Expired(dir, n, now, days) {
      if StampOf(n).Some? {
        ParsedNameIsFileName(n);
        var c := ParseName(n).value;
        TimeOrder(c, c);
        FirstDay(c);
      }
    }
  }

  /** `Run` is one step of a history, also where the cutoff overflows. */
  method RunStep(dir: BackupDirectory, a: Attempt, config: Config) returns (r: Outcome)
    requires Clock(a.now)
    modifies dir
    ensures dir.entries == R.After(StampOf, old(dir.entries), RunOf(a), config.retentionDays * DAY)
  {
    ghost var written := dir.entries[FileName(a.now) := true];
    r := dir.Run(a.now, config, a.fate);
    if r.CutoffOverflow? {
      OverflowPrunesNothing(written, a.now, config.retentionDays);
    }
  }

  /** The clock does not run backwards, and retention is at least a day. */
  ghost predicate Chronological(attempts: seq<Attempt>, days: nat) {
    && days >= 1
    && (forall i :: 0 <= i < |attempts| ==> Clock(attempts[i].now))
    && forall i, j :: 0 <= i <= j < |attempts| ==> Micros(attempts[i].now) <= Micros(attempts[j].now)
  }

  lemma FloorIsClose(c: Civil)
    requires Valid(c)
    ensures Valid(Floor(c)) && Micros(c) - R.SECOND < Micros(Floor(c)) <= Micros(c)
  {
  }

  lemma RunNamesItsSecond(a: Attempt)
    requires Valid(a.now)
    ensures StampOf(RunOf(a).name).Some?
    ensures RunOf(a).time - R.SECOND < StampOf(RunOf(a).name).value <= RunOf(a).time
  {
    NameRoundTrip(a.now);
    FloorIsClose(a.now);
  }

  /** The platform's naming fits the retention argument. */
  lemma RunsChronological(attempts: seq<Attempt>, days: nat)
    requires Chronological(attempts, days)
    ensures R.Chronological(StampOf, RunsOf(attempts), days * DAY)
  {
    forall i | 0 <= i < |attempts|
      ensures StampOf(RunsOf(attempts)[i].name).Some?
      ensures RunsOf(attempts)[i].time - R.SECOND < StampOf(RunsOf(attempts)[i].name).value <= RunsOf(attempts)[i].time
    {
      RunNamesItsSecond(attempts[i]);
    }
  }

  /** A backup that was there, or was written by one of the first k attempts. */
  ghost predicate Known(start: Directory, attempts: seq<Attempt>, days: nat, k: nat, name: string)
    requires k <= |attempts|
  {
    R.Known(StampOf, start, RunsOf(attempts), days * DAY, k, name)
  }

  /** Right after an attempt that wrote a whole backup, the platform's own files are exactly those that were
      there or were ever written, and are not before that attempt's cutoff; its own file is there. */
  lemma OwnFilesAre(start: Directory, attempts: seq<Attempt>, days: nat, k: nat, name: string)
    requires Chronological(attempts, days) && k < |attempts| && Wrote(start, attempts, days, k) &&
             attempts[k].fate.Whole?
    ensures Own(History(start, attempts, days, k + 1), name) <==>
            Known(start, attempts, days, k + 1, name) && StampOf(name).Some? &&
            StampOf(name).value >= Micros(attempts[k].now) - days * DAY
    ensures Own(History(start, attempts, days, k + 1), FileName(attempts[k].now))
  {
    var runs := RunsOf(attempts);
    RunsChronological(attempts, days);
    R.LastCutoffDecides(StampOf, start, runs, days * DAY, k, name);
    R.LastCutoffDecides(StampOf, start, runs, days * DAY, k, runs[k].name);
    assert runs[k] == RunOf(attempts[k]);
  }

  /** Whatever is not a platform backup is left alone, over any history, however the clock jumps. */
  lemma ForeignIsUntouched(start: Directory, attempts: seq<Attempt>, days: nat, k: nat, name: string)
    requires k <= |attempts| && forall i :: 0 <= i < |attempts| ==> Clock(attempts[i].now)
    requires StampOf(name).None? || (name in start && !start[name])
    ensures name in History(start, attempts, days, k) <==> name in start
    ensures name in start ==> History(start, attempts, days, k)[name] == start[name]
  {
    forall i | 0 <= i < |attempts| ensures StampOf(RunsOf(attempts)[i].name).Some? {
      RunNamesItsSecond(attempts[i]);
    }
    R.ForeignIsUntouched(StampOf, start, RunsOf(attempts), days * DAY, k, name);
  }

  /** When attempt `last` is the last that wrote, every other platform backup is strictly older
      than its file. */
  lemma LastWrittenIsNewest(start: Directory, attempts: seq<Attempt>, days: nat, last: nat, k: nat, name: string)
    requires Chronological(attempts, days) && last < k <= |attempts|
    requires Wrote(start, attempts, days, last) && R.NoneWrote(StampOf, start, RunsOf(attempts), days * DAY, last, k)
    requires R.ProperStart(StampOf, Canonical, start, RunsOf(attempts)[0].time)
    ensures Own(History(start, attempts, days, k), RunOf(attempts[last]).name)
    ensures Own(History(start, attempts, days, k), name) && name != RunOf(attempts[last]).name ==>
              R.Older(StampOf, name, RunOf(attempts[last]).name)
  {
    var runs := RunsOf(attempts);
    RunsChronological(attempts, days);
    CanonicalNamesOrdered(attempts, days);
    assert runs[0] == RunOf(attempts[0]) && runs[last] == RunOf(attempts[last]);
    R.LastWrittenIsNewest(StampOf, Canonical, start, runs, days * DAY, last, k, name);
  }

  /** So the default restore takes the file written last, also when that write stopped halfway. */
  method LatestIsLastWritten(dir: BackupDirectory, listing: seq<string>, ghost start: Directory,
                             ghost attempts: seq<Attempt>,
                             ghost days: nat, ghost last: nat, ghost k: nat) returns (r: Option<string>)
    requires forall n :: n in listing <==> n in dir.entries
    requires Chronological(attempts, days) && last < k <= |attempts| && dir.entries == History(start, attempts, days, k)
    requires Wrote(start, attempts, days, last) && R.NoneWrote(StampOf, start, RunsOf(attempts), days * DAY, last, k)
    requires R.ProperStart(StampOf, Canonical, start, RunsOf(attempts)[0].time)
    ensures r == Some(FileName(attempts[last].now))
  {
    r := dir.SelectBackup(listing, None);
    LastWrittenIsNewest(start, attempts, days, last, k, FileName(attempts[last].now));
    if r.Some? {
      LastWrittenIsNewest(start, attempts, days, last, k, r.value);
    }
  }

  lemma HistoryStep(start: Directory, attempts: seq<Attempt>, days: nat, last: nat)
    requires last < |attempts|
    ensures History(start, attempts, days, last + 1) ==
            R.After(StampOf, History(start, attempts, days, last), RunOf(attempts[last]), days * DAY)
    ensures Wrote(start, attempts, days, last) <==>
              R.Writes(History(start, attempts, days, last), RunOf(attempts[last]))
    ensures R.NoneWrote(StampOf, start, RunsOf(attempts), days * DAY, last, last + 1)
  {
  }

  /** One more run, and a restore of the latest: it takes the file this run wrote. */
  method BackupThenRestore(dir: BackupDirectory, config: Config, a: Attempt, ghost start: Directory,
                           ghost attempts: seq<Attempt>)
    returns (written: bool, r: Option<string>)
    requires attempts != [] && a == attempts[|attempts| - 1] && Chronological(attempts, config.retentionDays)
    requires dir.entries == History(start, attempts, config.retentionDays, |attempts| - 1)
    requires R.ProperStart(StampOf, Canonical, start, RunsOf(attempts)[0].time)
    modifies dir
    ensures dir.entries == History(start, attempts, config.retentionDays, |attempts|)
    ensures written <==> R.Writes(old(dir.entries), RunOf(a))
    ensures written ==> r == Some(FileName(a.now))
  {
    written := R.Writes(dir.entries, RunOf(a));
    HistoryStep(start, attempts, config.retentionDays, |attempts| - 1);
    var _ := RunStep(dir, a, config);
    var listing := dir.SortedNames();
    if written {
      r := LatestIsLastWritten(dir, listing, start, attempts, config.retentionDays, |attempts| - 1, |attempts|);
    } else {
      r := dir.SelectBackup(listing, None);
    }
  }

  lemma CanonicalNamesOrdered(attempts: seq<Attempt>, days: nat)
    requires Chronological(attempts, days)
    ensures R.PlainNamesOrdered(StampOf, Canonical, RunsOf(attempts))
  {
    var runs := RunsOf(attempts);
    forall i | 0 <= i < |runs| ensures Canonical(runs[i].name) {
      WrittenIsCanonical(attempts[i].now);
    }
    forall i, n | 0 <= i < |runs| && Canonical(n) && n != runs[i].name && StampOf(n).Some? &&
      StampOf(n).value <= runs[i].time
      ensures R.Older(StampOf, n, runs[i].name)
    {
      OtherNameIsOlder(n, attempts[i].now);
    }
  }

  lemma WrittenIsCanonical(c: Civil)
    requires Valid(c)
    ensures Canonical(FileName(c))
  {
    NameRoundTrip(c);
  }

  lemma OtherNameIsOlder(name: string, now: Civil)
    requires Valid(now) && StampOf(name).Some? && Canonical(name) && name != FileName(now)
    requires StampOf(name).value <= Micros(now)
    ensures StampOf(FileName(now)).Some? && StampOf(name).value < StampOf(FileName(now)).value
  {
    NameRoundTrip(now);
    ParsedNameIsFileName(name);
    var c := ParseName(name).value;
    if c == Floor(now) {
      SameFloorSameName(c, now);
    } else {
      WholeSecondsBefore(c, now);
    }
  }

  lemma SameFloorSameName(a: Civil, b: Civil)
    requires a == Floor(b)
    ensures FileName(a) == FileName(b)
  {
  }

  /** Another whole second not after an instant is before the second it falls in. */
  lemma WholeSecondsBefore(a: Civil, b: Civil)
    requires Valid(a) && Valid(b) && a.micro == 0 && a != Floor(b) && Micros(a) <= Micros(b)
    ensures Micros(a) < Micros(Floor(b))
  {
    LessIffMicros(b, a);
    LessIffMicros(a, Floor(b));
  }

  /** The end anchor lets a newline through: such a file of somebody else's is pruned as ours. */
  lemma NewlineNameIsTakenForOurs(c: Civil, dir: Directory, now: Civil, days: nat)
    requires Valid(c) && Micros(Floor(c)) < Micros(now) - days * DAY
    requires FileName(c) + "\n" in dir && dir[FileName(c) + "\n"]
    ensures FileName(c) + "\n" !in Pruned(dir, now, days)
  {
    NewlineNameParses(c);
  }

  lemma NewlineNameParses(c: Civil)
    requires Valid(c)
    ensures ParseName(FileName(c) + "\n") == Some(Floor(c))
  {
    NameRoundTrip(c);
    var name := FileName(c) + "\n";
    assert Body(name) == FileName(c) && MatchName(name) == MatchName(FileName(c));
  }
}
