/**
 * Worked cases of the admission checks, each on concrete values.
 *
 * The cases that get past the weekday check take their values as
 * parameters fixed by `requires`: written as literals into the call, they
 * make the verifier evaluate the whole check in one step, which costs more
 * than it is allowed.
 */
module Examples {
  import opened Options
  import opened GoStrings
  import opened GoTime
  import opened Clock
  import opened Calendar
  import opened RhmiConfig

  /** Both values are required, the maintenance value first. */
  lemma MissingValues()
    ensures BackupAndMaintenance("", "sun 23:00") == Rejected(MissingBackup)
    ensures BackupAndMaintenance("20:00", "") == Rejected(MissingMaintenance)
    ensures BackupAndMaintenance("", "") == Rejected(MissingMaintenance)
  {
  }

  /** A backup value that is not a time of day is refused. */
  lemma NotATime()
    ensures BackupAndMaintenance("not-a-time", "sun 23:00") == Rejected(BadBackupTime)
    ensures BackupAndMaintenance("24:00", "sun 23:00") == Rejected(BadBackupTime)
    ensures BackupAndMaintenance("9:60", "sun 23:00") == Rejected(BadBackupTime)
  {
    assert !ClockText("not-a-time") && !ClockText("24:00") && !ClockText("9:60");
  }

  /** A window starting half an hour into the backup window overlaps it. */
  lemma HalfHourApart(backup: string, maintenance: string)
    requires backup == "23:00" && maintenance == "sun 23:30"
    ensures BackupAndMaintenance(backup, maintenance)
      == Rejected(Overlap(Window(1380, 1440), Window(1410, 1470)))
  {
    assert maintenance == "sun" + " " + "23:30" + "";
    SpacedMaintenance(backup, "sun", "23:30", "");
    assert ClockValue(backup) == 1380 && ClockValue("23:30") == 1410;
    assert ToLower("sun") == "sun" == Weekdays[0];
  }

  /** The texts of those windows: their ends wrap past midnight. */
  lemma BackupWindowText()
    ensures WindowText(Window(1380, 1440)) == "23:00-00:00"
  {
    assert (1380 / 60) % 24 == 23 && 1380 % 60 == 0 && (1440 / 60) % 24 == 0 && 1440 % 60 == 0;
    assert TwoDigits(23) == "23" && TwoDigits(0) == "00";
    assert HourMinute(1380) == "23:00";
    assert HourMinute(1440) == "00:00";
  }

  lemma MaintenanceWindowText()
    ensures WindowText(Window(1410, 1470)) == "23:30-00:30"
  {
    assert (1410 / 60) % 24 == 23 && 1410 % 60 == 30 && (1470 / 60) % 24 == 0 && 1470 % 60 == 30;
    assert TwoDigits(23) == "23" && TwoDigits(30) == "30" && TwoDigits(0) == "00";
    assert HourMinute(1410) == "23:30";
    assert HourMinute(1470) == "00:30";
  }

  /** Windows that only touch do not overlap. */
  lemma TouchingWindows(backup: string, maintenance: string)
    requires backup == "22:00" && maintenance == "sun 23:00"
    ensures BackupAndMaintenance(backup, maintenance) == Accepted(backup, maintenance)
  {
    assert maintenance == "sun" + " " + "23:00" + "";
    SpacedMaintenance(backup, "sun", "23:00", "");
    assert ClockValue(backup) == 1320 && ClockValue("23:00") == 1380;
    assert ToLower("sun") == "sun" == Weekdays[0];
  }

  /** The windows are not compared across midnight: a backup at midnight
      and maintenance half an hour before it are accepted. */
  lemma NoWrapAcrossMidnight(backup: string, maintenance: string)
    requires backup == "00:00" && maintenance == "sun 23:30"
    ensures BackupAndMaintenance(backup, maintenance) == Accepted(backup, maintenance)
  {
    assert maintenance == "sun" + " " + "23:30" + "";
    SpacedMaintenance(backup, "sun", "23:30", "");
    assert ClockValue(backup) == 0 && ClockValue("23:30") == 1410;
    assert ToLower("sun") == "sun" == Weekdays[0];
  }

  /** The weekday is read in any case. */
  lemma UpperCaseWeekday(backup: string, maintenance: string)
    requires backup == "20:00" && maintenance == "SUN 23:00"
    ensures BackupAndMaintenance(backup, maintenance) == Accepted(backup, maintenance)
  {
    assert maintenance == "SUN" + " " + "23:00" + "";
    SpacedMaintenance(backup, "SUN", "23:00", "");
    assert ClockValue(backup) == 1200 && ClockValue("23:00") == 1380;
    assert ToLower("SUN") == "sun" == Weekdays[0];
  }

  /** An unknown weekday is refused. */
  lemma UnknownWeekday()
    ensures BackupAndMaintenance("20:00", "funday 23:00") == Rejected(BadWeekday)
  {
    var backup := "20:00";
    var maintenance := "funday 23:00";
    assert maintenance == "funday" + " " + "23:00" + "";
    SpacedMaintenance(backup, "funday", "23:00", "");
    assert |ToLower("funday")| == 6;
  }

  /** A weekday alone makes the index of the time segment out of range. */
  lemma WeekdayAlone()
    ensures BackupAndMaintenance("20:00", "sun") == Panicked
  {
    var backup := "20:00";
    var maintenance := "sun";
    NoSpaceMaintenance(backup, maintenance);
    assert ToLower("sun") == "sun" == Weekdays[0];
  }

  /** A second space right after the weekday makes the time segment empty. */
  lemma DoubleSpace(backup: string, maintenance: string)
    requires backup == "20:00" && maintenance == "sun  23:00"
    ensures BackupAndMaintenance(backup, maintenance) == Rejected(BadMaintenanceTime)
  {
    assert maintenance == "sun" + " " + "" + " 23:00";
    SpacedMaintenance(backup, "sun", "", " 23:00");
    assert ToLower("sun") == "sun" == Weekdays[0];
  }

  /** Text after a second space is ignored. */
  lemma TrailingWords(backup: string, maintenance: string)
    requires backup == "20:00" && maintenance == "sun 23:00 x"
    ensures BackupAndMaintenance(backup, maintenance) == Accepted(backup, maintenance)
  {
    assert maintenance == "sun" + " " + "23:00" + " x";
    SpacedMaintenance(backup, "sun", "23:00", " x");
    assert ClockValue(backup) == 1200 && ClockValue("23:00") == 1380;
    assert ToLower("sun") == "sun" == Weekdays[0];
  }

  /** A date beside a flag is refused for the flag; with no date the flags
      are not looked at. */
  lemma FlagWithDate(now: int)
    ensures UpgradeVerdict(Upgrade(true, false, "12 Jan 2030 23:00"), now) == Deny(ConflictingFlags)
    ensures UpgradeVerdict(Upgrade(false, true, "12 Jan 2030 23:00"), now) == Deny(ConflictingFlags)
    ensures UpgradeVerdict(Upgrade(true, true, ""), now) == Allow
  {
  }

  /** The date `12 Jan 1980 23:00` is written as `DateFormat` writes that
      date. */
  lemma Date1980Text()
    ensures Valid(DateTime(1980, 1, 12, 23, 0))
    ensures FormatDate(DateTime(1980, 1, 12, 23, 0)) == "12 Jan 1980 23:00"
  {
    var dt := DateTime(1980, 1, 12, 23, 0);
    DateLayoutText(dt);
    Fields1980();
  }

  /** The fields of that date, spelled out as the date layout spells them. */
  lemma Fields1980()
    ensures DayText(12) + (" " + (MonthName(1) + (" " + (FourDigits(1980)
      + (" " + (TwoDigits(23) + (":" + TwoDigits(0)))))))) == "12 Jan 1980 23:00"
  {
    assert DayText(12) == "12" && MonthName(1) == "Jan" && FourDigits(1980) == "1980";
    assert TwoDigits(23) == "23" && TwoDigits(0) == "00";
  }

  /** A date in the past is read and refused as not in the future, and
      the refusal shows the date as it was given. */
  lemma PastDate(now: int)
    requires Valid(DateTime(1980, 1, 12, 23, 0)) && now >= UnixNanos(DateTime(1980, 1, 12, 23, 0))
    ensures ParseDate("12 Jan 1980 23:00") == Some(DateTime(1980, 1, 12, 23, 0))
    ensures UpgradeVerdict(Upgrade(false, false, "12 Jan 1980 23:00"), now) == Deny(NotFuture("12 Jan 1980 23:00"))
  {
    Date1980Text();
  }
}
