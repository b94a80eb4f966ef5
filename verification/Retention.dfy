/** Retention over a history of runs, for any way of reading an instant out of a name. */
module Retention {
  import opened Prelude

  /** Names to kinds: true for a regular file, false for anything else. */
  type Directory = map<string, bool>

  /** The instant a name carries, in microseconds; None for a foreign name. */
  type Stamps = string -> Option<int>

  /** No dump; a write that stops halfway and leaves a truncated file; a whole backup. */
  datatype Fate = NoDump | Torn | Whole

  datatype Run = Run(name: string, time: int, fate: Fate)

  predicate Own(stamp: Stamps, dir: Directory, name: string) {
    name in dir && dir[name] && stamp(name).Some?
  }

  predicate Expired(stamp: Stamps, dir: Directory, name: string, cutoff: int) {
    Own(stamp, dir, name) && stamp(name).value < cutoff
  }

  function Pruned(stamp: Stamps, dir: Directory, cutoff: int): Directory {
    map n | n in dir && !Expired(stamp, dir, n, cutoff) :: dir[n]
  }

  /** A file of that name is there afterwards, whole or not. */
  predicate Writes(dir: Directory, r: Run) {
    !r.fate.NoDump? && !(r.name in dir && !dir[r.name])
  }

  function After(stamp: Stamps, dir: Directory, r: Run, window: int): Directory {
    if !Writes(dir, r) then dir
    else if r.fate.Torn? then dir[r.name := true]
    else Pruned(stamp, dir[r.name := true], r.time - window)
  }

  function History(stamp: Stamps, start: Directory, runs: seq<Run>, window: int, k: nat): Directory
    requires k <= |runs|
  {
    if k == 0 then start else After(stamp, History(stamp, start, runs, window, k - 1), runs[k - 1], window)
  }

  const SECOND := 1_000_000

  /** The clock does not run backwards, every run names its file by its own second, and the
      window is longer than a second. */
  ghost predicate Chronological(stamp: Stamps, runs: seq<Run>, window: int) {
    && window >= SECOND
    && (forall i :: 0 <= i < |runs| ==>
          stamp(runs[i].name).Some? && runs[i].time - SECOND < stamp(runs[i].name).value <= runs[i].time)
    && forall i, j :: 0 <= i <= j < |runs| ==> runs[i].time <= runs[j].time
  }

  /** Run i wrote its file. */
  predicate Wrote(stamp: Stamps, start: Directory, runs: seq<Run>, window: int, i: nat)
    requires i < |runs|
  {
    Writes(History(stamp, start, runs, window, i), runs[i])
  }

  /** And went on to prune. */
  predicate Pruning(stamp: Stamps, start: Directory, runs: seq<Run>, window: int, i: nat)
    requires i < |runs|
  {
    Wrote(stamp, start, runs, window, i) && runs[i].fate.Whole?
  }

  /** A backup that was there, or was written by one of the first k runs. */
  ghost predicate Known(stamp: Stamps, start: Directory, runs: seq<Run>, window: int, k: nat, name: string)
    requires k <= |runs|
  {
    Own(stamp, start, name) || exists i :: 0 <= i < k && Wrote(stamp, start, runs, window, i) && runs[i].name == name
  }

  /** Before the cutoff of one of the first k runs that pruned. */
  ghost predicate Outdated(stamp: Stamps, start: Directory, runs: seq<Run>, window: int, k: nat, name: string)
    requires k <= |runs| && stamp(name).Some?
  {
    exists i :: 0 <= i < k && Pruning(stamp, start, runs, window, i) && stamp(name).value < runs[i].time - window
  }

  /** The platform's own files are exactly those that were there or were written, and are not
      before any cutoff since applied. In particular no run prunes what it has just written. */
  lemma {:induction false} OwnFilesAre(stamp: Stamps, start: Directory, runs: seq<Run>, window: int, k: nat,
                                       name: string)
    requires Chronological(stamp, runs, window) && k <= |runs|
    ensures Own(stamp, History(stamp, start, runs, window, k), name) <==>
            Known(stamp, start, runs, window, k, name) && stamp(name).Some? &&
            !Outdated(stamp, start, runs, window, k, name)
  {
    if k > 0 {
      OwnFilesAre(stamp, start, runs, window, k - 1, name);
      OwnAfter(stamp, History(stamp, start, runs, window, k - 1), runs[k - 1], window, name);
      KnownThen(stamp, start, runs, window, k, name);
      if stamp(name).Some? {
        OutdatedThen(stamp, start, runs, window, k, name);
        if runs[k - 1].name == name {
          OwnNameIsRecent(stamp, start, runs, window, k, name);
        }
      }
    }
  }

  lemma OwnAfter(stamp: Stamps, dir: Directory, r: Run, window: int, name: string)
    ensures Own(stamp, After(stamp, dir, r, window), name) <==>
            if !Writes(dir, r) then Own(stamp, dir, name)
            else stamp(name).Some? && (r.fate.Whole? ==> stamp(name).value >= r.time - window) &&
                 (Own(stamp, dir, name) || name == r.name)
  {
  }

  lemma KnownThen(stamp: Stamps, start: Directory, runs: seq<Run>, window: int, k: nat, name: string)
    requires 0 < k <= |runs|
    ensures Known(stamp, start, runs, window, k, name) <==>
            Known(stamp, start, runs, window, k - 1, name) ||
              (Wrote(stamp, start, runs, window, k - 1) && runs[k - 1].name == name)
  {
  }

  lemma OutdatedThen(stamp: Stamps, start: Directory, runs: seq<Run>, window: int, k: nat, name: string)
    requires 0 < k <= |runs| && stamp(name).Some?
    ensures Outdated(stamp, start, runs, window, k, name) <==>
            Outdated(stamp, start, runs, window, k - 1, name)
            || (Pruning(stamp, start, runs, window, k - 1) && stamp(name).value < runs[k - 1].time - window)
  {
  }

  /** No cutoff so far is past the name a run writes. */
  lemma OwnNameIsRecent(stamp: Stamps, start: Directory, runs: seq<Run>, window: int, k: nat, name: string)
    requires Chronological(stamp, runs, window) && 0 < k <= |runs| && runs[k - 1].name == name
    ensures !Outdated(stamp, start, runs, window, k, name)
  {
    forall i | 0 <= i < k ensures stamp(name).value >= runs[i].time - window {
      assert runs[i].time <= runs[k - 1].time;
    }
  }

  /** With a later cutoff no earlier one matters. */
  lemma LastCutoffDecides(stamp: Stamps, start: Directory, runs: seq<Run>, window: int, k: nat, name: string)
    requires Chronological(stamp, runs, window) && k < |runs| && Pruning(stamp, start, runs, window, k)
    ensures Own(stamp, History(stamp, start, runs, window, k + 1), name) <==>
            Known(stamp, start, runs, window, k + 1, name) && stamp(name).Some? &&
            stamp(name).value >= runs[k].time - window
  {
    OwnFilesAre(stamp, start, runs, window, k + 1, name);
  }

  /** Everything that is not a platform backup stays as it was, whatever the clock does. */
  lemma {:induction false} ForeignIsUntouched(stamp: Stamps, start: Directory, runs: seq<Run>, window: int, k: nat,
                                              name: string)
    requires k <= |runs| && forall i :: 0 <= i < |runs| ==> stamp(runs[i].name).Some?
    requires stamp(name).None? || (name in start && !start[name])
    ensures name in History(stamp, start, runs, window, k) <==> name in start
    ensures name in start ==> History(stamp, start, runs, window, k)[name] == start[name]
  {
    if k > 0 {
      ForeignIsUntouched(stamp, start, runs, window, k - 1, name);
    }
  }

  /** Among plain names, one that is not run i's own and not later than run i carries an earlier
      instant than run i's name. */
  ghost predicate PlainNamesOrdered(stamp: Stamps, plain: string -> bool, runs: seq<Run>) {
    && (forall i :: 0 <= i < |runs| ==> plain(runs[i].name))
    && forall i, n ::
         0 <= i < |runs| && plain(n) && n != runs[i].name && stamp(n).Some? && stamp(n).value <= runs[i].time ==>
         Older(stamp, n, runs[i].name)
  }

  /** The backups there are at the start: plainly named, none from the future. */
  ghost predicate ProperStart(stamp: Stamps, plain: string -> bool, start: Directory, time: int) {
    forall n :: Own(stamp, start, n) ==> plain(n) && stamp(n).value <= time
  }

  predicate Older(stamp: Stamps, a: string, b: string) {
    stamp(a).Some? && stamp(b).Some? && stamp(a).value < stamp(b).value
  }

  ghost predicate NoneWrote(stamp: Stamps, start: Directory, runs: seq<Run>, window: int, after: nat, before: nat)
    requires before <= |runs|
  {
    forall i :: after < i < before ==> !Wrote(stamp, start, runs, window, i)
  }

  /** When run `last` is the last that wrote, be it only half a file, its file is there, and every
      other backup carries an earlier instant. */
  lemma {:induction false} LastWrittenIsNewest(stamp: Stamps, plain: string -> bool, start: Directory, runs: seq<Run>,
                                               window: int, last: nat, k: nat, name: string)
    requires Chronological(stamp, runs, window) && PlainNamesOrdered(stamp, plain, runs) && last < k <= |runs|
    requires Wrote(stamp, start, runs, window, last)
    requires NoneWrote(stamp, start, runs, window, last, k)
    requires ProperStart(stamp, plain, start, runs[0].time)
    ensures Own(stamp, History(stamp, start, runs, window, k), runs[last].name)
    ensures Own(stamp, History(stamp, start, runs, window, k), name) && name != runs[last].name ==>
              Older(stamp, name, runs[last].name)
    decreases k
  {
    if last < k - 1 {
      LastWrittenIsNewest(stamp, plain, start, runs, window, last, k - 1, name);
      assert !Wrote(stamp, start, runs, window, k - 1);
    } else {
      OwnFilesAre(stamp, start, runs, window, k, name);
      OwnFilesAre(stamp, start, runs, window, k, runs[last].name);
      if Own(stamp, History(stamp, start, runs, window, k), name) && name != runs[last].name {
        KnownIsEarlier(stamp, plain, start, runs, window, k, name);
      }
    }
  }

  lemma KnownIsEarlier(stamp: Stamps, plain: string -> bool, start: Directory, runs: seq<Run>, window: int, k: nat,
                       name: string)
    requires Chronological(stamp, runs, window) && PlainNamesOrdered(stamp, plain, runs) && 0 < k <= |runs|
    requires ProperStart(stamp, plain, start, runs[0].time) && Known(stamp, start, runs, window, k, name)
    requires name != runs[k - 1].name
    ensures Older(stamp, name, runs[k - 1].name)
  {
    if !Own(stamp, start, name) {
      var i :| 0 <= i < k && Wrote(stamp, start, runs, window, i) && runs[i].name == name;
      assert stamp(runs[i].name).value <= runs[i].time <= runs[k - 1].time;
    }
  }

  // -- newest first ---------------------------------------------------------

  ghost predicate NewestFirst(stamp: Stamps, names: seq<string>) {
    && (forall i :: 0 <= i < |names| ==> stamp(names[i]).Some?)
    && forall i, j :: 0 <= i < j < |names| ==> stamp(names[i]).value >= stamp(names[j]).value
  }

  /** A stable descending insertion: behind everything at least as new. */
  function Insert(stamp: Stamps, name: string, names: seq<string>): (r: seq<string>)
    requires stamp(name).Some? && forall i :: 0 <= i < |names| ==> stamp(names[i]).Some?
    ensures |r| == |names| + 1 && forall n :: n in r <==> n == name || n in names
  {
    if names == [] then [name]
    else if stamp(names[0]).value < stamp(name).value then [name] + names
    else [names[0]] + Insert(stamp, name, names[1..])
  }

  lemma {:induction false} InsertSorts(stamp: Stamps, name: string, names: seq<string>)
    requires stamp(name).Some? && NewestFirst(stamp, names)
    ensures NewestFirst(stamp, Insert(stamp, name, names))
  {
    if names != [] && stamp(names[0]).value >= stamp(name).value {
      InsertSorts(stamp, name, names[1..]);
      var rest := Insert(stamp, name, names[1..]);
      forall j | 0 <= j < |rest| ensures stamp(rest[j]).Some? && stamp(names[0]).value >= stamp(rest[j]).value {
        assert rest[j] in rest;
        if rest[j] != name {
          var i :| 0 <= i < |names[1..]| && names[1..][i] == rest[j];
        }
      }
    }
  }
}
