/** The Russian weekday names both schedulers recognise. */
module Weekdays {
  import opened Text

  datatype Weekday = Monday | Tuesday | Wednesday | Thursday | Friday | Saturday | Sunday

  /** The lower-case Russian name of a weekday. */
  function RussianName(d: Weekday): string {
    match d
    case Monday => "понедельник"
    case Tuesday => "вторник"
    case Wednesday => "среда"
    case Thursday => "четверг"
    case Friday => "пятница"
    case Saturday => "суббота"
    case Sunday => "воскресенье"
  }

  /** The lower-case English name, as ru_to_en gives it. */
  function EnglishName(d: Weekday): string {
    match d
    case Monday => "monday"
    case Tuesday => "tuesday"
    case Wednesday => "wednesday"
    case Thursday => "thursday"
    case Friday => "friday"
    case Saturday => "saturday"
    case Sunday => "sunday"
  }

  /** The weekday a lower-case Russian name denotes, if any. */
  function RussianDay(s: string): (r: Option<Weekday>)
    ensures r.Some? ==> RussianName(r.value) == s
  {
    if s == "понедельник" then Some(Monday)
    else if s == "вторник" then Some(Tuesday)
    else if s == "среда" then Some(Wednesday)
    else if s == "четверг" then Some(Thursday)
    else if s == "пятница" then Some(Friday)
    else if s == "суббота" then Some(Saturday)
    else if s == "воскресенье" then Some(Sunday)
    else None
  }

  /** Every weekday's name is recognised as that weekday. */
  lemma RussianNameRoundTrip(d: Weekday)
    ensures RussianDay(RussianName(d)) == Some(d)
  {
  }

  /** Exactly the seven names are recognised. */
  lemma RussianDaySpec(s: string)
    ensures RussianDay(s).None? <==> forall d: Weekday :: RussianName(d) != s
  {
    if RussianDay(s).None? {
      forall d: Weekday ensures RussianName(d) != s {
        RussianNameRoundTrip(d);
      }
    }
  }

  /** Distinct weekdays have distinct English names. */
  lemma EnglishNameInjective(d: Weekday, e: Weekday)
    ensures EnglishName(d) == EnglishName(e) ==> d == e
  {
  }
}

/** scheduler.py: a single pass that launches every publication whose day
    entry names today and whose time is the current HH:MM. The clock and the
    file system are inputs: today's English day name, the current time and
    whether a script exists. */
module LaunchScheduler {
  import opened Text
  import opened Seq
  import opened Weekdays

  /** An entry of config['publications']; days may be absent, and reading it
      then raises KeyError. */
  datatype Publication = Publication(scriptName: string, days: Option<seq<string>>, time: string)

  function DaysOf(pub: Publication): seq<string> {
    if pub.days.Some? then pub.days.value else []
  }

  /** How many publications the outer loop gets through: the index of the
      first one without days, or all of them. */
  function Reached(pubs: seq<Publication>): (n: nat)
    ensures n <= |pubs|
  {
    if pubs == [] then 0 else if pubs[0].days.None? then 0 else 1 + Reached(pubs[1..])
  }

  /** ru_to_en.get: the English name of a lower-case Russian day name. */
  function RuToEn(s: string): Option<string> {
    match RussianDay(s)
    case Some(d) => Some(EnglishName(d))
    case None => None
  }

  /** The test of one day entry of pub against the clock. */
  predicate Fires(pub: Publication, entry: string, currentDay: string, currentTime: string) {
    RuToEn(Lower(entry)) == Some(currentDay) && pub.time == currentTime
  }

  function FiresFor(pub: Publication, currentDay: string, currentTime: string): string -> bool {
    entry => Fires(pub, entry, currentDay, currentTime)
  }

  /** The launches of script for the day entries ds, given which entries
      fire. */
  function DayLaunches(script: string, ds: seq<string>, fires: string -> bool, scriptExists: string -> bool): seq<string> {
    if ds == [] then []
    else
      DayLaunches(script, ds[..|ds| - 1], fires, scriptExists)
      + (if fires(ds[|ds| - 1]) && scriptExists(script) then [script] else [])
  }

  /** Which day entries of a publication fire now. */
  function Due(currentDay: string, currentTime: string): Publication -> string -> bool {
    pub => FiresFor(pub, currentDay, currentTime)
  }

  /** The scripts launched for the publications, in order, given which day
      entries fire. */
  function Launches(pubs: seq<Publication>, due: Publication -> string -> bool, scriptExists: string -> bool): seq<string> {
    if pubs == [] then []
    else
      var last := pubs[|pubs| - 1];
      Launches(pubs[..|pubs| - 1], due, scriptExists) + DayLaunches(last.scriptName, DaysOf(last), due(last), scriptExists)
  }

  /** The outer loop over the publications. A publication without days
      raises KeyError, which ends the script: the launches made so far stand
      and no later publication is looked at. */
  method LaunchDue(pubs: seq<Publication>, currentDay: string, currentTime: string,
                   scriptExists: string -> bool) returns (launched: seq<string>, raised: bool)
    ensures raised <==> exists i :: 0 <= i < |pubs| && pubs[i].days.None?
    ensures launched == Launches(pubs[..Reached(pubs)], Due(currentDay, currentTime), scriptExists)
  {
    ghost var due := Due(currentDay, currentTime);
    launched := [];
    for i := 0 to |pubs|
      invariant launched == Launches(pubs[..i], due, scriptExists)
      invariant i <= Reached(pubs)
    {
      ReachedStep(pubs, i);
      if pubs[i].days.None? {
        return launched, true;
      }
      var more := LaunchDays(pubs[i], currentDay, currentTime, scriptExists);
      LaunchesSnoc(pubs, i, due, scriptExists);
      launched := launched + more;
    }
    ReachedSpec(pubs);
    assert pubs[..|pubs|] == pubs;
    return launched, false;
  }

  /** The inner loop over the day entries of one publication. */
  method LaunchDays(pub: Publication, currentDay: string, currentTime: string,
                    scriptExists: string -> bool) returns (launched: seq<string>)
    requires pub.days.Some?
    ensures launched == DayLaunches(pub.scriptName, pub.days.value, FiresFor(pub, currentDay, currentTime), scriptExists)
  {
    ghost var fires := FiresFor(pub, currentDay, currentTime);
    var days := pub.days.value;
    launched := [];
    for j := 0 to |days|
      invariant launched == DayLaunches(pub.scriptName, days[..j], fires, scriptExists)
    {
      DayLaunchesSnoc(pub.scriptName, days, j, fires, scriptExists);
      var enDay := RuToEn(Lower(days[j]));
      assert fires(days[j]) == (enDay == Some(currentDay) && pub.time == currentTime);
      if enDay == Some(currentDay) && pub.time == currentTime {
        if scriptExists(pub.scriptName) {
          launched := launched + [pub.scriptName];
        }
      }
    }
    assert days[..|days|] == days;
  }

  lemma LaunchesSnoc(pubs: seq<Publication>, i: nat, due: Publication -> string -> bool, scriptExists: string -> bool)
    requires i < |pubs|
    ensures Launches(pubs[..i + 1], due, scriptExists)
      == Launches(pubs[..i], due, scriptExists) + DayLaunches(pubs[i].scriptName, DaysOf(pubs[i]), due(pubs[i]), scriptExists)
  {
    assert pubs[..i + 1][..i] == pubs[..i];
  }

  /** The loop, having got through i publications, stops at the next one
      exactly when it has no days, and there Reached is i. */
  lemma ReachedStep(pubs: seq<Publication>, i: nat)
    requires i < |pubs| && i <= Reached(pubs)
    ensures pubs[i].days.Some? <==> i < Reached(pubs)
    ensures pubs[i].days.None? ==> Reached(pubs) == i && exists k :: 0 <= k < |pubs| && pubs[k].days.None?
  {
    ReachedSpec(pubs);
  }

  /** Reached stops exactly at the first publication without days. */
  lemma {:induction false} ReachedSpec(pubs: seq<Publication>)
    ensures forall k :: 0 <= k < Reached(pubs) ==> pubs[k].days.Some?
    ensures Reached(pubs) < |pubs| ==> pubs[Reached(pubs)].days.None?
    ensures Reached(pubs) == |pubs| <==> forall k :: 0 <= k < |pubs| ==> pubs[k].days.Some?
    decreases |pubs|
  {
    if pubs != [] && pubs[0].days.Some? {
      ReachedSpec(pubs[1..]);
      assert forall k :: 0 < k < |pubs| ==> pubs[k] == pubs[1..][k - 1];
    }
  }

  // Properties

  lemma DayLaunchesSnoc(script: string, ds: seq<string>, j: nat, fires: string -> bool, scriptExists: string -> bool)
    requires j < |ds|
    ensures DayLaunches(script, ds[..j + 1], fires, scriptExists)
      == DayLaunches(script, ds[..j], fires, scriptExists) + (if fires(ds[j]) && scriptExists(script) then [script] else [])
  {
    assert ds[..j + 1][..j] == ds[..j];
  }

  /** An entry fires exactly when, lower-cased, it is the Russian name of the
      weekday whose English name is today's, and the time matches. */
  lemma FiresSpec(pub: Publication, entry: string, currentDay: string, currentTime: string)
    ensures Fires(pub, entry, currentDay, currentTime) <==>
      pub.time == currentTime
      && exists d: Weekday :: Lower(entry) == RussianName(d) && EnglishName(d) == currentDay
  {
    if exists d: Weekday :: Lower(entry) == RussianName(d) && EnglishName(d) == currentDay {
      var d: Weekday :| Lower(entry) == RussianName(d) && EnglishName(d) == currentDay;
      RussianNameRoundTrip(d);
    }
  }

  /** The daily entry of the other scheduler never fires here. */
  lemma DailyNeverFires(pub: Publication, entry: string, currentDay: string, currentTime: string)
    requires Lower(entry) == "ежедневно"
    ensures !Fires(pub, entry, currentDay, currentTime)
  {
    RussianDaySpec(Lower(entry));
  }

  /** One launch of the script per firing entry, none when the script is
      missing: a duplicated day launches twice. */
  lemma {:induction false} DayLaunchesSpec(script: string, ds: seq<string>, fires: string -> bool,
                                           scriptExists: string -> bool)
    ensures |DayLaunches(script, ds, fires, scriptExists)| == if scriptExists(script) then |Filter(ds, fires)| else 0
    ensures forall s :: s in DayLaunches(script, ds, fires, scriptExists) ==> s == script
    decreases |ds|
  {
    if ds != [] {
      var init := ds[..|ds| - 1];
      assert ds == init + [ds[|ds| - 1]];
      FilterSnoc(init, ds[|ds| - 1], fires);
      DayLaunchesSpec(script, init, fires, scriptExists);
    }
  }

  /** The script launches for the day entries ds exactly when one of them
      fires and the script exists. */
  lemma {:induction false} DayLaunchesMember(script: string, ds: seq<string>, fires: string -> bool,
                                             scriptExists: string -> bool, s: string)
    ensures s in DayLaunches(script, ds, fires, scriptExists) <==>
      s == script && scriptExists(s) && (exists j :: 0 <= j < |ds| && fires(ds[j]))
    decreases |ds|
  {
    if ds != [] {
      var init := ds[..|ds| - 1];
      DayLaunchesMember(script, init, fires, scriptExists, s);
      assert forall j :: 0 <= j < |init| ==> init[j] == ds[j];
    }
  }

  /** Some day entry of a publication naming s fires. */
  predicate Named(pubs: seq<Publication>, due: Publication -> string -> bool, s: string) {
    exists i, j :: 0 <= i < |pubs| && 0 <= j < |DaysOf(pubs[i])| && pubs[i].scriptName == s && due(pubs[i])(DaysOf(pubs[i])[j])
  }

  lemma NamedSnoc(pubs: seq<Publication>, due: Publication -> string -> bool, s: string)
    requires pubs != []
    ensures var last := pubs[|pubs| - 1];
      Named(pubs, due, s) <==>
        Named(pubs[..|pubs| - 1], due, s)
        || (last.scriptName == s && exists j :: 0 <= j < |DaysOf(last)| && due(last)(DaysOf(last)[j]))
  {
    var init, last := pubs[..|pubs| - 1], pubs[|pubs| - 1];
    if Named(pubs, due, s) {
      var i, j :| 0 <= i < |pubs| && 0 <= j < |DaysOf(pubs[i])| && pubs[i].scriptName == s && due(pubs[i])(DaysOf(pubs[i])[j]);
      if i < |init| {
        assert init[i] == pubs[i];
      }
    }
    if Named(init, due, s) {
      var i, j :| 0 <= i < |init| && 0 <= j < |DaysOf(init[i])| && init[i].scriptName == s && due(init[i])(DaysOf(init[i])[j]);
      assert init[i] == pubs[i];
    }
  }

  /** A script is launched exactly when some day entry of a publication
      naming it fires and the script exists. */
  lemma {:induction false} LaunchesMember(pubs: seq<Publication>, due: Publication -> string -> bool,
                                          scriptExists: string -> bool, s: string)
    ensures s in Launches(pubs, due, scriptExists) <==> scriptExists(s) && Named(pubs, due, s)
    decreases |pubs|
  {
    if pubs != [] {
      var last := pubs[|pubs| - 1];
      LaunchesMember(pubs[..|pubs| - 1], due, scriptExists, s);
      DayLaunchesMember(last.scriptName, DaysOf(last), due(last), scriptExists, s);
      NamedSnoc(pubs, due, s);
    }
  }

  /** The entries that fire now are those Fires accepts. */
  lemma DueSpec(pub: Publication, entry: string, currentDay: string, currentTime: string)
    ensures Due(currentDay, currentTime)(pub)(entry) == Fires(pub, entry, currentDay, currentTime)
  {
  }
}

/** publication_scheduler.py: loading the schedule, registering one job per
    recognised day entry, and the environment a job's script runs with. The
    schedule file, the environment, and the time validation of the schedule
    library are inputs. */
module PublicationScheduler {
  import opened Text
  import opened Seq
  import opened Weekdays

  /** A value of a publication's sql_config: a JSON string or integer. */
  datatype Cell = Str(s: string) | Int(n: int)

  /** An entry of "publications": days and sql_config may be absent. */
  datatype Publication = Publication(
    scriptName: string,
    days: Option<seq<string>>,
    time: string,
    sqlConfig: Option<map<string, Cell>>)

  /** load_schedule_config: nothing when the file is missing, else its
      "publications" or nothing. */
  function LoadScheduleConfig(present: bool, publications: Option<seq<Publication>>): seq<Publication> {
    if !present then []
    else match publications
      case Some(pubs) => pubs
      case None => []
  }

  // The child environment of run_script

  const DbKeys: set<string> := {"DB_HOST", "DB_PORT", "DB_NAME", "DB_USER", "DB_PASSWORD"}

  /** Python truthiness of sql_config. */
  predicate Truthy(cfg: Option<map<string, Cell>>) {
    cfg.Some? && cfg.value != map[]
  }

  /** str() of a sql_config value. */
  function Show(c: Cell): string {
    match c
    case Str(s) => s
    case Int(n) => IntToString(n)
  }

  /** The value the child receives for one of the five keys: the sql_config
      value (stringified for DB_PORT), else the inherited value, else "". */
  function Preferred(environ: map<string, string>, cfg: map<string, Cell>, k: string): Cell {
    if k in cfg then (if k == "DB_PORT" then Str(Show(cfg[k])) else cfg[k])
    else Str(if k in environ then environ[k] else "")
  }

  /** dict.get(k, default) on the environment being built. */
  function Get(cfg: map<string, Cell>, k: string, env: map<string, Cell>): Cell {
    if k in cfg then cfg[k] else if k in env then env[k] else Str("")
  }

  /** The copy of os.environ that run_script builds, updated in place. */
  method ChildEnvironment(environ: map<string, string>, sqlConfig: Option<map<string, Cell>>)
    returns (env: map<string, Cell>)
    ensures !Truthy(sqlConfig) ==> env == map k | k in environ :: Str(environ[k])
    ensures Truthy(sqlConfig) ==> env.Keys == environ.Keys + DbKeys
    ensures Truthy(sqlConfig) ==> forall k :: k in DbKeys ==> env[k] == Preferred(environ, sqlConfig.value, k)
    ensures forall k :: k in environ && k !in DbKeys ==> env[k] == Str(environ[k])
  {
    env := map k | k in environ :: Str(environ[k]);
    if Truthy(sqlConfig) {
      var cfg := sqlConfig.value;
      env := env["DB_HOST" := Get(cfg, "DB_HOST", env)];
      env := env["DB_PORT" := Str(Show(Get(cfg, "DB_PORT", env)))];
      env := env["DB_NAME" := Get(cfg, "DB_NAME", env)];
      env := env["DB_USER" := Get(cfg, "DB_USER", env)];
      env := env["DB_PASSWORD" := Get(cfg, "DB_PASSWORD", env)];
      assert env["DB_HOST"] == Preferred(environ, cfg, "DB_HOST");
      assert env["DB_PORT"] == Preferred(environ, cfg, "DB_PORT");
      assert env["DB_NAME"] == Preferred(environ, cfg, "DB_NAME");
      assert env["DB_USER"] == Preferred(environ, cfg, "DB_USER");
    }
  }

  /** The environment the script is started with; None when starting it
      fails because a value is not a string. */
  method RunScript(environ: map<string, string>, sqlConfig: Option<map<string, Cell>>)
    returns (childEnv: Option<map<string, string>>)
    ensures childEnv.None? <==>
      Truthy(sqlConfig) && exists k :: k in sqlConfig.value && k in DbKeys && k != "DB_PORT" && sqlConfig.value[k].Int?
    ensures childEnv.Some? ==>
      childEnv.value.Keys == if Truthy(sqlConfig) then environ.Keys + DbKeys else environ.Keys
    ensures childEnv.Some? ==>
      forall k :: k in childEnv.value ==>
        Str(childEnv.value[k]) == if Truthy(sqlConfig) && k in DbKeys then Preferred(environ, sqlConfig.value, k)
                                  else Str(environ[k])
  {
    var env := ChildEnvironment(environ, sqlConfig);
    if forall k :: k in env ==> env[k].Str? {
      childEnv := Some(map k | k in env :: env[k].s);
    } else {
      childEnv := None;
      var k :| k in env && env[k].Int?;
      assert k in DbKeys && k != "DB_PORT";
    }
  }

  // Registering the jobs

  datatype When = On(day: Weekday) | Daily

  /** A registered job: when it runs, at what time, and what it runs with. */
  datatype Job = Job(when: When, time: string, scriptName: string, sqlConfig: Option<map<string, Cell>>)

  /** What a day entry registers once lower-cased: a weekday, daily, or
      nothing. */
  function Recognise(entry: string): Option<When> {
    var e := Lower(entry);
    match RussianDay(e)
    case Some(d) => Some(On(d))
    case None => if e == "ежедневно" then Some(Daily) else None
  }

  predicate IsRecognised(entry: string) {
    Recognise(entry).Some?
  }

  function DaysOf(pub: Publication): seq<string> {
    if pub.days.Some? then pub.days.value else []
  }

  function JobOf(pub: Publication, entry: string): Job
    requires IsRecognised(entry)
  {
    Job(Recognise(entry).value, pub.time, pub.scriptName, pub.sqlConfig)
  }

  /** The jobs the day entries ds of pub register. */
  function JobsFor(pub: Publication, ds: seq<string>): seq<Job> {
    if ds == [] then []
    else
      var last := ds[|ds| - 1];
      JobsFor(pub, ds[..|ds| - 1]) + (if IsRecognised(last) then [JobOf(pub, last)] else [])
  }

  function JobsOf(pub: Publication): seq<Job> {
    JobsFor(pub, DaysOf(pub))
  }

  /** A publication on which .at() raises: its time is not valid and it has
      a recognised entry. */
  predicate Fails(pub: Publication, validTime: string -> bool) {
    !validTime(pub.time) && Filter(DaysOf(pub), IsRecognised) != []
  }

  /** The jobs registered, and whether registration raised. */
  datatype Outcome = Outcome(jobs: seq<Job>, raised: bool)

  function Schedule(pubs: seq<Publication>, validTime: string -> bool): Outcome {
    if pubs == [] then Outcome([], false)
    else
      var prev := Schedule(pubs[..|pubs| - 1], validTime);
      var pub := pubs[|pubs| - 1];
      if prev.raised then prev
      else if Fails(pub, validTime) then Outcome(prev.jobs, true)
      else Outcome(prev.jobs + JobsOf(pub), false)
  }

  /** schedule_jobs: the loop over the publications. */
  method ScheduleJobs(present: bool, publications: Option<seq<Publication>>, validTime: string -> bool)
    returns (jobs: seq<Job>, raised: bool)
    ensures Outcome(jobs, raised) == Schedule(LoadScheduleConfig(present, publications), validTime)
  {
    var pubs := LoadScheduleConfig(present, publications);
    jobs := [];
    for i := 0 to |pubs|
      invariant Schedule(pubs[..i], validTime) == Outcome(jobs, false)
    {
      assert pubs[..i + 1][..i] == pubs[..i];
      var more, failed := RegisterDays(pubs[i], validTime);
      if failed {
        ScheduleStays(pubs, i + 1, validTime);
        return jobs, true;
      }
      jobs := jobs + more;
    }
    assert pubs[..|pubs|] == pubs;
    return jobs, false;
  }

  /** The loop over the day entries of one publication: the jobs it
      registers, or true when .at() raises on the first recognised entry. */
  method RegisterDays(pub: Publication, validTime: string -> bool) returns (jobs: seq<Job>, failed: bool)
    ensures failed == Fails(pub, validTime)
    ensures !failed ==> jobs == JobsOf(pub)
  {
    var days := if pub.days.Some? then pub.days.value else [];
    jobs := [];
    for j := 0 to |days|
      invariant jobs == JobsFor(pub, days[..j])
      invariant !validTime(pub.time) ==> Filter(days[..j], IsRecognised) == []
    {
      assert days[..j + 1] == days[..j] + [days[j]];
      FilterSnoc(days[..j], days[j], IsRecognised);
      var when := Recognise(days[j]);
      if when.Some? {
        if !validTime(pub.time) {
          FilterPrefix(days, j + 1, IsRecognised);
          return [], true;
        }
        jobs := jobs + [Job(when.value, pub.time, pub.scriptName, pub.sqlConfig)];
      }
    }
    assert days[..|days|] == days;
    return jobs, false;
  }

  // Properties

  /** The seven weekday names and the daily entry, in any case, register;
      nothing else does. */
  lemma RecogniseSpec(entry: string, d: Weekday)
    ensures Recognise(entry) == Some(On(d)) <==> Lower(entry) == RussianName(d)
    ensures Recognise(entry) == Some(Daily) <==> Lower(entry) == "ежедневно"
    ensures Recognise(entry).None? <==>
      Lower(entry) != "ежедневно" && forall e: Weekday :: Lower(entry) != RussianName(e)
  {
    RussianNameRoundTrip(d);
    RussianDaySpec(Lower(entry));
  }

  /** One job per recognised entry, in list order, each at pub's time and
      running pub's script with pub's sql_config. */
  lemma {:induction false} JobsForSpec(pub: Publication, ds: seq<string>)
    ensures |JobsFor(pub, ds)| == |Filter(ds, IsRecognised)|
    ensures forall k :: 0 <= k < |JobsFor(pub, ds)| ==> JobsFor(pub, ds)[k] == JobOf(pub, Filter(ds, IsRecognised)[k])
    decreases |ds|
  {
    if ds != [] {
      var init := ds[..|ds| - 1];
      assert ds == init + [ds[|ds| - 1]];
      FilterSnoc(init, ds[|ds| - 1], IsRecognised);
      JobsForSpec(pub, init);
    }
  }

  lemma JobsForEmpty(pub: Publication, ds: seq<string>)
    requires Filter(ds, IsRecognised) == []
    ensures JobsFor(pub, ds) == []
  {
    JobsForSpec(pub, ds);
  }

  lemma FilterPrefix(ds: seq<string>, n: nat, p: string -> bool)
    requires n <= |ds| && Filter(ds[..n], p) != []
    ensures Filter(ds, p) != []
  {
    SplitAt(ds, n);
    FilterAppend(ds[..n], ds[n..], p);
  }

  /** Once registration has raised, later publications register nothing. */
  lemma {:induction false} ScheduleStays(pubs: seq<Publication>, n: nat, validTime: string -> bool)
    requires n <= |pubs| && Schedule(pubs[..n], validTime).raised
    ensures Schedule(pubs, validTime) == Schedule(pubs[..n], validTime)
    decreases |pubs| - n
  {
    if n == |pubs| {
      assert pubs[..n] == pubs;
    } else {
      var init := pubs[..|pubs| - 1];
      assert init[..n] == pubs[..n];
      ScheduleStays(init, n, validTime);
    }
  }

  /** Registration raises exactly when some publication fails. */
  lemma {:induction false} ScheduleRaises(pubs: seq<Publication>, validTime: string -> bool)
    ensures Schedule(pubs, validTime).raised <==> exists i :: 0 <= i < |pubs| && Fails(pubs[i], validTime)
    decreases |pubs|
  {
    if pubs != [] {
      var init, last := pubs[..|pubs| - 1], pubs[|pubs| - 1];
      ScheduleRaises(init, validTime);
      RaisedStep(pubs, validTime);
      SplitLast(pubs);
      FailsSnoc(pubs, init, last, validTime);
    }
  }

  lemma FailsSnoc(pubs: seq<Publication>, init: seq<Publication>, last: Publication, validTime: string -> bool)
    requires pubs == init + [last]
    ensures (exists i :: 0 <= i < |pubs| && Fails(pubs[i], validTime)) <==>
      (exists i :: 0 <= i < |init| && Fails(init[i], validTime)) || Fails(last, validTime)
  {
    if exists i :: 0 <= i < |pubs| && Fails(pubs[i], validTime) {
      var i :| 0 <= i < |pubs| && Fails(pubs[i], validTime);
      if i < |init| {
        assert init[i] == pubs[i];
      }
    }
    if exists i :: 0 <= i < |init| && Fails(init[i], validTime) {
      var i :| 0 <= i < |init| && Fails(init[i], validTime);
      assert pubs[i] == init[i];
    }
    assert pubs[|init|] == last;
  }

  lemma RaisedStep(pubs: seq<Publication>, validTime: string -> bool)
    requires pubs != []
    ensures Schedule(pubs, validTime).raised ==
      (Schedule(pubs[..|pubs| - 1], validTime).raised || Fails(pubs[|pubs| - 1], validTime))
  {
  }

  /** Without a raise, every publication's jobs are registered, in order. */
  lemma {:induction false} ScheduleAll(pubs: seq<Publication>, validTime: string -> bool)
    ensures !Schedule(pubs, validTime).raised ==> Schedule(pubs, validTime).jobs == FlatMap(pubs, JobsOf)
    decreases |pubs|
  {
    if pubs != [] {
      ScheduleAll(pubs[..|pubs| - 1], validTime);
    }
  }

  /** What schedule_jobs makes of the file: a missing file or a file without
      "publications" registers nothing and does not raise; otherwise it
      raises exactly when one of the listed publications fails, and without
      a raise registers the jobs of all of them in order. */
  lemma ConfigSchedule(present: bool, publications: Option<seq<Publication>>, validTime: string -> bool)
    ensures !present || publications.None? ==>
      Schedule(LoadScheduleConfig(present, publications), validTime) == Outcome([], false)
    ensures present && publications.Some? ==>
      (Schedule(LoadScheduleConfig(present, publications), validTime).raised <==>
         exists i :: 0 <= i < |publications.value| && Fails(publications.value[i], validTime))
    ensures present && publications.Some? && !Schedule(LoadScheduleConfig(present, publications), validTime).raised ==>
      Schedule(LoadScheduleConfig(present, publications), validTime).jobs == FlatMap(publications.value, JobsOf)
  {
    if present && publications.Some? {
      ScheduleRaises(publications.value, validTime);
      ScheduleAll(publications.value, validTime);
    }
  }

  /** When the publication at n is the first that fails, the jobs of the
      publications before it stay registered. */
  lemma ScheduleFirstFailure(pubs: seq<Publication>, n: nat, validTime: string -> bool)
    requires n < |pubs| && Fails(pubs[n], validTime)
    requires forall i :: 0 <= i < n ==> !Fails(pubs[i], validTime)
    ensures Schedule(pubs, validTime) == Outcome(FlatMap(pubs[..n], JobsOf), true)
  {
    ScheduleRaises(pubs[..n], validTime);
    ScheduleAll(pubs[..n], validTime);
    assert pubs[..n + 1][..n] == pubs[..n];
    ScheduleStays(pubs, n + 1, validTime);
  }
}
