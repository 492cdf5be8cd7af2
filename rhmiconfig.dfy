/**
 * The admission checks of an RHMIConfig: the backup and maintenance
 * windows, and the requested upgrade date.
 */
module RhmiConfig {
  import opened Options
  import opened GoStrings
  import opened GoTime
  import opened Clock
  import opened Calendar

  /** The upgrade part of a configuration's spec. */
  datatype Upgrade = Upgrade(alwaysImmediately: bool, duringNextMaintenance: bool, applyOn: string)

  /** `applyFrom`: a weekday and a time of day, `DDD HH:mm`. */
  datatype Maintenance = Maintenance(applyFrom: string)

  /** `applyOn`: a time of day, `HH:mm`. */
  datatype Backup = Backup(applyOn: string)

  datatype RhmiConfigSpec = RhmiConfigSpec(upgrade: Upgrade, maintenance: Maintenance, backup: Backup)

  /** Why a configuration is refused. An overlap names both one-hour
      windows, which the message shows as `HH:MM-HH:MM` (`WindowText`); a
      date that is not in the future is shown written in `DateFormat`. */
  datatype ConfigError =
    | MissingMaintenance
    | MissingBackup
    | BadBackupTime
    | BadWeekday
    | BadMaintenanceTime
    | Overlap(backupWindow: Window, maintenanceWindow: Window)
    | ConflictingFlags
    | BadUpgradeDate
    | NotFuture(applyOn: string)

  /** What `ValidateBackupAndMaintenance` ends in: both values returned, an
      error, or a run-time panic (an index out of range). */
  datatype Checked = Accepted(backup: string, maintenance: string) | Rejected(error: ConfigError) | Panicked

  /** What an admission hook ends in. */
  datatype Verdict = Allow | Deny(error: ConfigError) | Panic

  /** The weekday names a maintenance window may start with. */
  const Weekdays: seq<string> := ["sun", "mon", "tue", "wed", "thu", "fri", "sat"]

  /** `timeBlockOverlaps`: block A starts before block B ends and ends after
      B starts. */
  function TimeBlockOverlaps(startA: int, endA: int, startB: int, endB: int): (r: bool)
    ensures endA == startA + 60 && endB == startB + 60 ==> (r <==> -60 < startA - startB < 60)
    ensures r ==> startA < endA || startB < endB
  {
    startA < endB && endA > startB
  }

  /** Which block is named first does not matter. */
  lemma OverlapIsSymmetric(startA: int, endA: int, startB: int, endB: int)
    ensures TimeBlockOverlaps(startA, endA, startB, endB) == TimeBlockOverlaps(startB, endB, startA, endA)
  {
  }

  /** The weekday check is case-insensitive: the lower case of a segment is
      a weekday name exactly when the segment spells one in some mix of
      cases. */
  lemma KnownWeekday(d: string)
    ensures ToLower(d) in Weekdays <==> exists k :: 0 <= k < |Weekdays| && SpellsInAnyCase(d, Weekdays[k])
  {
    forall k | 0 <= k < |Weekdays|
      ensures ToLower(d) == Weekdays[k] <==> SpellsInAnyCase(d, Weekdays[k])
    {
      assert LowerAscii(Weekdays[k]);
      LowerEquals(d, Weekdays[k]);
    }
  }

  /** `contains`: whether `e` is one of the strings in `s`. */
  method Contains(s: seq<string>, e: string) returns (found: bool)
    ensures found <==> e in s
  {
    for i := 0 to |s|
      invariant e !in s[..i]
    {
      if s[i] == e {
        return true;
      }
    }
    assert s[..|s|] == s;
    return false;
  }

  /** The outcome of `ValidateBackupAndMaintenance`, in the order the checks
      are made. Times are minutes after midnight of the parse's first day;
      the hour added to each stays on the same time line, while the window
      text shows its end as a time of day. */
  function BackupAndMaintenance(backupApplyOn: string, maintenanceApplyFrom: string): (c: Checked)
    ensures maintenanceApplyFrom == [] ==> c == Rejected(MissingMaintenance)
    ensures maintenanceApplyFrom != [] && backupApplyOn == [] ==> c == Rejected(MissingBackup)
    ensures c == Rejected(MissingMaintenance) || c == Rejected(MissingBackup) ==>
      maintenanceApplyFrom == [] || backupApplyOn == []
    ensures maintenanceApplyFrom != [] && backupApplyOn != [] ==>
      (c == Rejected(BadBackupTime) <==> !ClockText(backupApplyOn))
    ensures c.Accepted? ==> c == Accepted(backupApplyOn, maintenanceApplyFrom)
  {
    if maintenanceApplyFrom == [] then Rejected(MissingMaintenance)
    else if backupApplyOn == [] then Rejected(MissingBackup)
    else match ParseClock(backupApplyOn)
      case None => Rejected(BadBackupTime)
      case Some(backup) =>
        var segments := SplitOnSpace(maintenanceApplyFrom);
        if ToLower(segments[0]) !in Weekdays then Rejected(BadWeekday)
        else if |segments| < 2 then Panicked
        else match ParseClock(segments[1])
          case None => Rejected(BadMaintenanceTime)
          case Some(maintenance) =>
            if TimeBlockOverlaps(backup, backup + 60, maintenance, maintenance + 60) then
              Rejected(Overlap(Window(backup, backup + 60), Window(maintenance, maintenance + 60)))
            else Accepted(backupApplyOn, maintenanceApplyFrom)
  }

  /** `ValidateBackupAndMaintenance`, step by step. */
  method ValidateBackupAndMaintenance(backupApplyOn: string, maintenanceApplyFrom: string) returns (c: Checked)
    ensures c == BackupAndMaintenance(backupApplyOn, maintenanceApplyFrom)
  {
    if maintenanceApplyFrom == [] {
      return Rejected(MissingMaintenance);
    }
    if backupApplyOn == [] {
      return Rejected(MissingBackup);
    }
    var parsedBackup := ParseClock(backupApplyOn);
    if parsedBackup.None? {
      return Rejected(BadBackupTime);
    }
    var segments := SplitOnSpace(maintenanceApplyFrom);
    var knownDay := Contains(Weekdays, ToLower(segments[0]));
    if !knownDay {
      return Rejected(BadWeekday);
    }
    if |segments| < 2 {
      return Panicked;
    }
    var parsedMaintenance := ParseClock(segments[1]);
    if parsedMaintenance.None? {
      return Rejected(BadMaintenanceTime);
    }
    var backup, maintenance := parsedBackup.value, parsedMaintenance.value;
    var backupEnd, maintenanceEnd := backup + 60, maintenance + 60;
    if TimeBlockOverlaps(backup, backupEnd, maintenance, maintenanceEnd) {
      return Rejected(Overlap(Window(backup, backupEnd), Window(maintenance, maintenanceEnd)));
    }
    return Accepted(backupApplyOn, maintenanceApplyFrom);
  }

  /** Two one-hour windows starting at these minutes of the day overlap. */
  predicate Near(a: int, b: int) {
    a - b < 60 && b - a < 60
  }

  /** A maintenance value without a space is refused when it is not a
      weekday; when it is one, reading its time segment panics. */
  lemma NoSpaceMaintenance(backupApplyOn: string, maintenanceApplyFrom: string)
    requires ClockText(backupApplyOn) && maintenanceApplyFrom != [] && ' ' !in maintenanceApplyFrom
    ensures BackupAndMaintenance(backupApplyOn, maintenanceApplyFrom)
      == if ToLower(maintenanceApplyFrom) in Weekdays then Panicked else Rejected(BadWeekday)
  {
    SplitWord(maintenanceApplyFrom);
  }

  /** A maintenance value holding a space never panics. */
  lemma SpacedNeverPanics(backupApplyOn: string, maintenanceApplyFrom: string)
    requires ' ' in maintenanceApplyFrom
    ensures BackupAndMaintenance(backupApplyOn, maintenanceApplyFrom) != Panicked
  {
    SpaceSplits(maintenanceApplyFrom);
  }

  /** A maintenance value is its first word, a space, its second word and
      what follows: the weekday must be the first word in any case, the
      time the second word, nothing after it counts, and the windows an
      hour long from each time must not overlap. */
  lemma SpacedMaintenance(backupApplyOn: string, day: string, time: string, extra: string)
    requires ClockText(backupApplyOn)
    requires ' ' !in day && ' ' !in time && (extra == [] || extra[0] == ' ')
    ensures var backup, maintenanceApplyFrom := ClockValue(backupApplyOn), day + " " + time + extra;
      BackupAndMaintenance(backupApplyOn, maintenanceApplyFrom) ==
        if ToLower(day) !in Weekdays then Rejected(BadWeekday)
        else if !ClockText(time) then Rejected(BadMaintenanceTime)
        else if Near(backup, ClockValue(time)) then
          Rejected(Overlap(Window(backup, backup + 60), Window(ClockValue(time), ClockValue(time) + 60)))
        else Accepted(backupApplyOn, maintenanceApplyFrom)
  {
    var maintenanceApplyFrom := day + " " + time + extra;
    MaintenanceSegments(day, time, extra);
    DecidedBySegments(backupApplyOn, maintenanceApplyFrom, day, time);
  }

  lemma MaintenanceSegments(day: string, time: string, extra: string)
    requires ' ' !in day && ' ' !in time && (extra == [] || extra[0] == ' ')
    ensures var segments := SplitOnSpace(day + " " + time + extra);
      |segments| >= 2 && segments[0] == day && segments[1] == time
  {
    assert day + " " + time + extra == day + " " + (time + extra);
    SplitAfterWord(day, time + extra);
    if extra == [] {
      assert time + extra == time;
      SplitWord(time);
    } else {
      assert time + extra == time + " " + extra[1..];
      SplitAfterWord(time, extra[1..]);
    }
  }

  lemma DecidedBySegments(backupApplyOn: string, maintenanceApplyFrom: string, day: string, time: string)
    requires ClockText(backupApplyOn) && maintenanceApplyFrom != []
    requires var segments := SplitOnSpace(maintenanceApplyFrom);
      |segments| >= 2 && segments[0] == day && segments[1] == time
    ensures var backup := ClockValue(backupApplyOn);
      BackupAndMaintenance(backupApplyOn, maintenanceApplyFrom) ==
        if ToLower(day) !in Weekdays then Rejected(BadWeekday)
        else if !ClockText(time) then Rejected(BadMaintenanceTime)
        else if Near(backup, ClockValue(time)) then
          Rejected(Overlap(Window(backup, backup + 60), Window(ClockValue(time), ClockValue(time) + 60)))
        else Accepted(backupApplyOn, maintenanceApplyFrom)
  {
  }

  /** An overlap error names the two windows an hour long from the backup
      time and from the maintenance time, which lie less than an hour
      apart. */
  lemma OverlapWindows(backupApplyOn: string, maintenanceApplyFrom: string, backupWindow: Window, maintenanceWindow: Window)
    requires BackupAndMaintenance(backupApplyOn, maintenanceApplyFrom) == Rejected(Overlap(backupWindow, maintenanceWindow))
    ensures ParseClock(backupApplyOn) == Some(backupWindow.start)
    ensures ParseClock(SplitOnSpace(maintenanceApplyFrom)[1]) == Some(maintenanceWindow.start)
    ensures backupWindow.end == backupWindow.start + 60 && maintenanceWindow.end == maintenanceWindow.start + 60
    ensures Near(backupWindow.start, maintenanceWindow.start)
  {
  }

  /** The upgrade date part of `ValidateUpdate`, with the clock reading
      `now` in nanoseconds since the Unix epoch: an empty date is fine; a
      date set beside either flag is refused; otherwise it must be written
      in `DateFormat` and lie strictly after `now`. */
  function UpgradeVerdict(upgrade: Upgrade, now: int): (v: Verdict)
    ensures upgrade.applyOn == [] ==> v == Allow
    ensures v != Panic
    ensures v.Deny? ==> v.error.ConflictingFlags? || v.error.BadUpgradeDate? || v.error.NotFuture?
    ensures upgrade.applyOn != [] && (upgrade.alwaysImmediately || upgrade.duringNextMaintenance) ==>
      v == Deny(ConflictingFlags)
    ensures upgrade.applyOn != [] && !upgrade.alwaysImmediately && !upgrade.duringNextMaintenance ==>
      (v == Deny(BadUpgradeDate) <==> ParseDate(upgrade.applyOn).None?)
    ensures (upgrade.applyOn != [] && !upgrade.alwaysImmediately && !upgrade.duringNextMaintenance
             && ParseDate(upgrade.applyOn).Some?) ==>
      v == if UnixNanos(ParseDate(upgrade.applyOn).value) <= now
           then Deny(NotFuture(FormatDate(ParseDate(upgrade.applyOn).value))) else Allow
  {
    if upgrade.applyOn == [] then Allow
    else if upgrade.alwaysImmediately || upgrade.duringNextMaintenance then Deny(ConflictingFlags)
    else match ParseDate(upgrade.applyOn)
      case None => Deny(BadUpgradeDate)
      case Some(applyOn) =>
        if UnixNanos(applyOn) <= now then Deny(NotFuture(FormatDate(applyOn))) else Allow
  }

  /** `ValidateUpdate`: the windows first, then the upgrade date. */
  function UpdateVerdict(spec: RhmiConfigSpec, now: int): (v: Verdict)
    ensures BackupAndMaintenance(spec.backup.applyOn, spec.maintenance.applyFrom) == Panicked ==> v == Panic
    ensures BackupAndMaintenance(spec.backup.applyOn, spec.maintenance.applyFrom).Rejected? ==>
      v == Deny(BackupAndMaintenance(spec.backup.applyOn, spec.maintenance.applyFrom).error)
    ensures v == Allow <==>
      BackupAndMaintenance(spec.backup.applyOn, spec.maintenance.applyFrom).Accepted?
      && UpgradeVerdict(spec.upgrade, now) == Allow
    ensures BackupAndMaintenance(spec.backup.applyOn, spec.maintenance.applyFrom).Accepted? ==>
      v == UpgradeVerdict(spec.upgrade, now)
  {
    match BackupAndMaintenance(spec.backup.applyOn, spec.maintenance.applyFrom)
    case Panicked => Panic
    case Rejected(e) => Deny(e)
    case Accepted(_, _) => UpgradeVerdict(spec.upgrade, now)
  }

  /** `ValidateUpdate`, step by step; `old` is not consulted. */
  method ValidateUpdate(spec: RhmiConfigSpec, now: int) returns (v: Verdict)
    ensures v == UpdateVerdict(spec, now)
  {
    var checked := ValidateBackupAndMaintenance(spec.backup.applyOn, spec.maintenance.applyFrom);
    if checked.Panicked? {
      return Panic;
    }
    if checked.Rejected? {
      return Deny(checked.error);
    }
    if spec.upgrade.applyOn == [] {
      return Allow;
    }
    if spec.upgrade.alwaysImmediately || spec.upgrade.duringNextMaintenance {
      return Deny(ConflictingFlags);
    }
    var parsed := ParseDate(spec.upgrade.applyOn);
    if parsed.None? {
      return Deny(BadUpgradeDate);
    }
    var applyOn := parsed.value;
    if UnixNanos(applyOn) <= now {
      return Deny(NotFuture(FormatDate(applyOn)));
    }
    return Allow;
  }

  /** `ValidateCreate` admits every configuration. */
  function ValidateCreate(spec: RhmiConfigSpec): (v: Verdict)
    ensures v == Allow
  {
    Allow
  }

  /** `ValidateDelete` admits every deletion. */
  function ValidateDelete(spec: RhmiConfigSpec): (v: Verdict)
    ensures v == Allow
  {
    Allow
  }

  /** An upgrade date is admitted exactly when it is empty, or is set
      without either flag and reads as an instant after `now`. */
  lemma UpgradeAllowsExactly(upgrade: Upgrade, now: int)
    ensures UpgradeVerdict(upgrade, now) == Allow <==>
      upgrade.applyOn == []
      || (!upgrade.alwaysImmediately && !upgrade.duringNextMaintenance
          && ParseDate(upgrade.applyOn).Some? && UnixNanos(ParseDate(upgrade.applyOn).value) > now)
  {
  }

  /** A date refused as not in the future is shown in a form that reads
      back as the same date, which is not after `now`. */
  lemma NotFutureEchoesDate(upgrade: Upgrade, now: int, shown: string)
    requires UpgradeVerdict(upgrade, now) == Deny(NotFuture(shown))
    ensures ParseDate(shown) == ParseDate(upgrade.applyOn) && ParseDate(shown).Some?
    ensures UnixNanos(ParseDate(shown).value) <= now
  {
    var dt := NotFutureDate(upgrade, now, shown);
    FormatThenParse(dt);
  }

  lemma NotFutureDate(upgrade: Upgrade, now: int, shown: string) returns (dt: DateTime)
    requires UpgradeVerdict(upgrade, now) == Deny(NotFuture(shown))
    ensures ParseDate(upgrade.applyOn) == Some(dt) && shown == FormatDate(dt) && UnixNanos(dt) <= now
  {
    dt := ParseDate(upgrade.applyOn).value;
  }

  /** An upgrade due exactly now is refused. */
  lemma DueNowIsRefused(upgrade: Upgrade, dt: DateTime)
    requires !upgrade.alwaysImmediately && !upgrade.duringNextMaintenance
    requires ParseDate(upgrade.applyOn) == Some(dt)
    ensures UpgradeVerdict(upgrade, UnixNanos(dt)) == Deny(NotFuture(FormatDate(dt)))
  {
  }

  /** What is admitted now was admitted at every earlier time. */
  lemma AdmittedEarlier(upgrade: Upgrade, earlier: int, now: int)
    requires earlier <= now && UpgradeVerdict(upgrade, now) == Allow
    ensures UpgradeVerdict(upgrade, earlier) == Allow
  {
  }

  /** Moving an admitted upgrade to a later date keeps it admitted. */
  lemma LaterDateAdmitted(upgrade: Upgrade, now: int, later: string)
    requires upgrade.applyOn != [] && UpgradeVerdict(upgrade, now) == Allow
    requires ParseDate(later).Some? && Before(ParseDate(upgrade.applyOn).value, ParseDate(later).value)
    ensures UpgradeVerdict(upgrade.(applyOn := later), now) == Allow
  {
    UnixMinutesOrdered(ParseDate(upgrade.applyOn).value, ParseDate(later).value);
  }
}
