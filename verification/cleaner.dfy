/** `AsyncDailyCleaner`: once a day at 01:00 UTC+8 the temp directory is
    emptied of files, on even days of the month only. Time is whole seconds
    since the Unix epoch; the day of the month and the directory listing
    are parameters. */
module Cleaner {

  const DaySeconds: int := 86400

  /** UTC+8, in seconds. */
  const UtcOffset: int := 8 * 3600

  /** 01:00:00, in seconds after local midnight. */
  const RunSecond: int := 3600

  /** `is_even_day_tail`: the last digit of the day of the month is even. */
  function IsEvenDayTail(day: nat): (r: bool)
    ensures r <==> day % 2 == 0
  {
    LastDigitParity(day);
    (day % 10) % 2 == 0
  }

  /** Looking at the last digit is looking at the day: both have the same
      parity. */
  lemma LastDigitParity(day: nat)
    ensures (day % 10) % 2 == day % 2
  {
    var q, t := day / 10, day % 10;
    assert day == 10 * q + t;
    var h, b := t / 2, t % 2;
    assert t == 2 * h + b && 0 <= b < 2;
    assert day == 2 * (5 * q + h) + b;
    assert day % 2 == b;
  }

  /** The second of the UTC+8 day at the instant `t`. */
  function LocalSecond(t: int): int {
    (t + UtcOffset) % DaySeconds
  }

  /** The sleep `run_daily_task` computes at `now`: until today's 01:00
      UTC+8 if that is still ahead, else until tomorrow's. It is the first
      01:00 strictly after `now`, at most a day away. */
  function SleepSeconds(now: int): (r: int)
    ensures 0 < r <= DaySeconds
    ensures LocalSecond(now + r) == RunSecond
    ensures forall t :: now < t < now + r ==> LocalSecond(t) != RunSecond
  {
    var local := now + UtcOffset;
    var midnight := local - local % DaySeconds;
    var today := midnight + RunSecond;
    var next := if local >= today then today + DaySeconds else today;
    assert LocalSecond(next - UtcOffset) == RunSecond by {
      assert next - UtcOffset + UtcOffset == next;
      assert next == (local / DaySeconds + (if local >= today then 1 else 0)) * DaySeconds + RunSecond;
    }
    forall t | now < t < next - UtcOffset
      ensures LocalSecond(t) != RunSecond
    {
      var u := t + UtcOffset;
      assert local < u < next;
      if local >= today {
        assert midnight + RunSecond <= local < u < midnight + DaySeconds + RunSecond;
      } else {
        assert midnight <= local < u < midnight + RunSecond;
      }
      assert midnight == (local / DaySeconds) * DaySeconds;
      SecondOfDayInWindow(u, midnight);
    }
    next - local
  }

  /** A time in the day-long window that starts at a 01:00 (or in the hour
      before it) is at 01:00 only at the window's start. */
  lemma SecondOfDayInWindow(u: int, midnight: int)
    requires midnight % DaySeconds == 0
    requires midnight < u < midnight + RunSecond || midnight + RunSecond < u < midnight + DaySeconds + RunSecond
    ensures u % DaySeconds != RunSecond
  {
    var k := midnight / DaySeconds;
    assert midnight == k * DaySeconds;
    if u < midnight + DaySeconds {
      assert u % DaySeconds == u - midnight;
    } else {
      assert u - (k + 1) * DaySeconds == u - midnight - DaySeconds;
      assert u % DaySeconds == u - midnight - DaySeconds;
    }
  }

  /** Woken exactly at 01:00, the loop computes a full day's sleep, so after
      the first run the cleaner wakes once every 24 hours. */
  lemma {:induction false} DailyAfterFirstRun(now: int)
    requires LocalSecond(now) == RunSecond
    ensures SleepSeconds(now) == DaySeconds
  {
    var r := SleepSeconds(now);
    var k := (now + UtcOffset) / DaySeconds;
    assert now + UtcOffset == k * DaySeconds + RunSecond;
  }

  /** An entry of `os.listdir(temp_dir)`: a name and whether it is a file. */
  datatype Entry = Entry(name: string, isFile: bool)

  /** What the cleaner does to one file. */
  datatype Action = Truncate(path: string) | Remove(path: string)

  /** `os.path.join(dir, name)` on POSIX: an absolute name replaces the
      directory, and a separator is inserted only when needed. */
  function PathJoin(dir: string, name: string): string {
    if name != [] && name[0] == '/' then name
    else if dir == [] || dir[|dir| - 1] == '/' then dir + name
    else dir + "/" + name
  }

  /** The two files the cleaner empties instead of deleting. */
  function ProtectedPaths(dir: string): set<string> {
    {PathJoin(dir, "forward_config.json"), PathJoin(dir, "sent_md5.json")}
  }

  /** The paths of the plain files listed. */
  function FilePaths(dir: string, entries: seq<Entry>): set<string> {
    set i | 0 <= i < |entries| && entries[i].isFile :: PathJoin(dir, entries[i].name)
  }

  /** The action for one listed file. */
  function ActionFor(dir: string, name: string): Action {
    var path := PathJoin(dir, name);
    if path in ProtectedPaths(dir) then Truncate(path) else Remove(path)
  }

  /** The loop of `clear_temp_files` over the listing: files are truncated
      when protected and removed otherwise; directories are skipped. */
  function ClearEntries(dir: string, entries: seq<Entry>): (r: seq<Action>)
    ensures |r| <= |entries|
    ensures forall k :: 0 <= k < |r| ==> r[k].path in FilePaths(dir, entries)
    ensures forall k :: 0 <= k < |r| ==> (r[k].Truncate? <==> r[k].path in ProtectedPaths(dir))
    ensures forall i :: 0 <= i < |entries| && entries[i].isFile ==> ActionFor(dir, entries[i].name) in r
  {
    if entries == [] then []
    else
      var rest := ClearEntries(dir, entries[1..]);
      assert FilePaths(dir, entries[1..]) <= FilePaths(dir, entries) by {
        forall p | p in FilePaths(dir, entries[1..]) ensures p in FilePaths(dir, entries) {
          var i :| 0 <= i < |entries[1..]| && entries[1..][i].isFile && p == PathJoin(dir, entries[1..][i].name);
          assert entries[i + 1] == entries[1..][i];
        }
      }
      if entries[0].isFile then
        assert PathJoin(dir, entries[0].name) in FilePaths(dir, entries);
        [ActionFor(dir, entries[0].name)] + rest
      else rest
  }

  /** `clear_temp_files`: nothing when the directory is missing. */
  function ClearTempFiles(dir: string, dirExists: bool, entries: seq<Entry>): (r: seq<Action>)
    ensures !dirExists ==> r == []
    ensures dirExists ==> r == ClearEntries(dir, entries)
  {
    if dirExists then ClearEntries(dir, entries) else []
  }

  /** One wake-up of `run_daily_task`: clean on an even day, skip otherwise. */
  function Tick(day: nat, dir: string, dirExists: bool, entries: seq<Entry>): (r: seq<Action>)
    ensures !IsEvenDayTail(day) ==> r == []
    ensures IsEvenDayTail(day) ==> r == ClearTempFiles(dir, dirExists, entries)
  {
    if IsEvenDayTail(day) then ClearTempFiles(dir, dirExists, entries) else []
  }

  /** A name `os.listdir` can return: not empty, no separator. */
  predicate ListedName(name: string) {
    name != [] && '/' !in name
  }

  /** A directory path that `os.path.join` extends with a separator. */
  predicate PlainDir(dir: string) {
    dir != [] && dir[|dir| - 1] != '/'
  }

  /** No listed name reaches into a subdirectory: joining a listed name to
      `dir` never gives a path inside `dir/sub`. */
  lemma {:induction false} SubdirectoryUntouched(dir: string, name: string, sub: string, file: string)
    requires PlainDir(dir) && ListedName(name) && ListedName(sub) && ListedName(file)
    ensures PathJoin(dir, name) != PathJoin(PathJoin(dir, sub), file)
  {
    var inner := PathJoin(dir, sub);
    assert inner == dir + "/" + sub;
    assert inner[|inner| - 1] == sub[|sub| - 1];
    var deep := PathJoin(inner, file);
    assert deep == dir + "/" + sub + "/" + file;
    var n := |dir| + 1;
    assert PathJoin(dir, name)[n..] == name;
    assert deep[n..][|sub|] == '/';
  }

  /** The plugin's temp directory, the one the cleaner is started on. */
  const PluginTemp: string := "data/plugins_data/astrbot_plugin_fuckanka/temp"

  /** Where the registry and the send ledger really live: one level down. */
  const LiveDir: string := "shit"

  /** With the plugin's wiring the files the cleaner protects are not the
      live ones, which sit in a subdirectory the cleaner never enters; no
      tick touches the live registry or the live ledger. */
  lemma LiveFilesNeverTouched(day: nat, dirExists: bool, entries: seq<Entry>)
    requires forall i :: 0 <= i < |entries| ==> ListedName(entries[i].name)
    ensures forall a :: a in Tick(day, PluginTemp, dirExists, entries) ==>
              && a.path != PathJoin(PathJoin(PluginTemp, LiveDir), "forward_config.json")
              && a.path != PathJoin(PathJoin(PluginTemp, LiveDir), "sent_md5.json")
  {
    assert PlainDir(PluginTemp);
    assert ListedName(LiveDir);
    assert ListedName("forward_config.json") && ListedName("sent_md5.json");
    forall a | a in Tick(day, PluginTemp, dirExists, entries)
      ensures a.path != PathJoin(PathJoin(PluginTemp, LiveDir), "forward_config.json")
      ensures a.path != PathJoin(PathJoin(PluginTemp, LiveDir), "sent_md5.json")
    {
      var r := Tick(day, PluginTemp, dirExists, entries);
      var k :| 0 <= k < |r| && r[k] == a;
      assert a.path in FilePaths(PluginTemp, entries);
      var i :| 0 <= i < |entries| && entries[i].isFile && a.path == PathJoin(PluginTemp, entries[i].name);
      SubdirectoryUntouched(PluginTemp, entries[i].name, LiveDir, "forward_config.json");
      SubdirectoryUntouched(PluginTemp, entries[i].name, LiveDir, "sent_md5.json");
    }
  }
}
