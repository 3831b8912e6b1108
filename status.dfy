/**
 * The status table of update_status.py: a JSON object mapping each project
 * to its list of step records. `update_status` loads the table, upserts one
 * step of one project by name, and saves it back with every list sorted by
 * step name; `clear_project_steps` empties one project's list if the
 * project is present. Step names and statuses are derived from log-file
 * names. Parsing dates (`strptime`) is not part of this model: the elapsed
 * time between two date strings is the parameter `elapsed`.
 */
module Status {
  import opened Wrappers
  import opened Text

  const Running := "running"
  const Completed := "done"

  /** One step as stored in the table (`asdict(Step)`); a missing date is the empty string. */
  datatype StepRecord = StepRecord(name: string, status: string, dateStarted: string,
                                   dateFinished: string, duration: string)

  type StatusData = map<string, seq<StepRecord>>

  /** `calculate_duration` on a record: only when both dates are non-empty is the duration set. */
  function WithDuration(s: StepRecord, elapsed: (string, string) -> string): (r: StepRecord)
    ensures r.name == s.name && r.status == s.status
    ensures r.dateStarted == s.dateStarted && r.dateFinished == s.dateFinished
    ensures s.dateStarted != "" && s.dateFinished != "" ==> r.duration == elapsed(s.dateStarted, s.dateFinished)
    ensures s.dateStarted == "" || s.dateFinished == "" ==> r == s
  {
    if s.dateStarted != "" && s.dateFinished != "" then s.(duration := elapsed(s.dateStarted, s.dateFinished))
    else s
  }

  /** The `Step` dataclass, whose fields `update_status` and `calculate_duration` assign. */
  class Step {
    var name: string
    var status: string
    var dateStarted: string
    var dateFinished: string
    var duration: string

    /** `Step(name=…, status=…, date_started=…, date_finished=…)`; the duration defaults to empty. */
    constructor (name: string, status: string, dateStarted: string, dateFinished: string)
      ensures Record() == StepRecord(name, status, dateStarted, dateFinished, "")
    {
      this.name := name;
      this.status := status;
      this.dateStarted := dateStarted;
      this.dateFinished := dateFinished;
      this.duration := "";
    }

    /** `asdict(step)`. */
    function Record(): StepRecord
      reads this
    {
      StepRecord(name, status, dateStarted, dateFinished, duration)
    }

    /** `Step.calculate_duration`: assigns the duration only when both dates are non-empty. */
    method CalculateDuration(elapsed: (string, string) -> string)
      modifies this
      ensures Record() == WithDuration(old(Record()), elapsed)
    {
      if dateStarted != "" && dateFinished != "" {
        duration := elapsed(dateStarted, dateFinished);
      }
    }
  }

  /** Index of the first record named `name`, or `|steps|` when there is none. */
  function FirstNamed(steps: seq<StepRecord>, name: string): (i: nat)
    ensures i <= |steps|
    ensures forall j :: 0 <= j < i ==> steps[j].name != name
    ensures i < |steps| ==> steps[i].name == name
  {
    if steps == [] then 0
    else if steps[0].name == name then 0
    else 1 + FirstNamed(steps[1..], name)
  }

  /** Any index with the two properties of `FirstNamed` is `FirstNamed`. */
  lemma FirstNamedIs(steps: seq<StepRecord>, name: string, i: nat)
    requires i <= |steps|
    requires forall j :: 0 <= j < i ==> steps[j].name != name
    requires i < |steps| ==> steps[i].name == name
    ensures FirstNamed(steps, name) == i
  {
  }

  /**
   * The record `update_status` leaves for step `s` in list `steps`, which is
   * also the final state of the `Step` object: for an existing "done" step the
   * original start date is kept and the duration recomputed from it; for any
   * other existing step the new fields replace the old ones as they are; a new
   * step gets its duration computed first.
   */
  function Stored(steps: seq<StepRecord>, s: StepRecord, elapsed: (string, string) -> string): StepRecord
  {
    var i := FirstNamed(steps, s.name);
    if i < |steps| then
      if s.status == Completed then WithDuration(s.(dateStarted := steps[i].dateStarted), elapsed)
      else s
    else WithDuration(s, elapsed)
  }

  /** The project's list after the upsert: the first same-named entry replaced, or the step appended. */
  function Upserted(steps: seq<StepRecord>, s: StepRecord, elapsed: (string, string) -> string): seq<StepRecord>
  {
    var i := FirstNamed(steps, s.name);
    if i < |steps| then steps[i := Stored(steps, s, elapsed)] else steps + [Stored(steps, s, elapsed)]
  }

  /** `data.setdefault(project, [])` followed by the upsert. */
  function Updated(data: StatusData, project: string, s: StepRecord,
                   elapsed: (string, string) -> string): StatusData
  {
    var steps := if project in data then data[project] else [];
    data[project := Upserted(steps, s, elapsed)]
  }

  /** An update changes `data[project]` and nothing else. */
  lemma UpdateTouchesOnlyProject(data: StatusData, project: string, s: StepRecord,
                                 elapsed: (string, string) -> string)
    ensures var d := Updated(data, project, s, elapsed);
      d.Keys == data.Keys + {project}
      && forall p :: p in data && p != project ==> d[p] == data[p]
  {
  }

  /** An unknown project is created holding just the new step. */
  lemma UnknownProjectCreated(data: StatusData, project: string, s: StepRecord,
                              elapsed: (string, string) -> string)
    requires project !in data
    ensures Updated(data, project, s, elapsed)[project] == [WithDuration(s, elapsed)]
  {
    assert FirstNamed([], s.name) == 0;
  }

  /** A step whose name is not present is appended as exactly one new entry. */
  lemma NewStepAppended(steps: seq<StepRecord>, s: StepRecord, elapsed: (string, string) -> string)
    requires forall j :: 0 <= j < |steps| ==> steps[j].name != s.name
    ensures Upserted(steps, s, elapsed) == steps + [WithDuration(s, elapsed)]
  {
    FirstNamedIs(steps, s.name, |steps|);
  }

  /**
   * A step whose name is present replaces the first entry with that name; the
   * length is unchanged and every other entry is unchanged. Unless the status
   * is "done", the entry becomes exactly the new step.
   */
  lemma ExistingStepReplaced(steps: seq<StepRecord>, s: StepRecord, elapsed: (string, string) -> string, i: nat)
    requires i < |steps| && steps[i].name == s.name
    requires forall j :: 0 <= j < i ==> steps[j].name != s.name
    ensures var u := Upserted(steps, s, elapsed);
      |u| == |steps|
      && (forall j :: 0 <= j < |steps| && j != i ==> u[j] == steps[j])
      && u[i].name == s.name && u[i].status == s.status && u[i].dateFinished == s.dateFinished
      && (s.status != Completed ==> u[i] == s)
  {
    FirstNamedIs(steps, s.name, i);
  }

  /**
   * Completing an existing step keeps its original start date, and the
   * duration is recomputed from that start to the new finish.
   */
  lemma CompletionKeepsStart(steps: seq<StepRecord>, s: StepRecord, elapsed: (string, string) -> string, i: nat)
    requires i < |steps| && steps[i].name == s.name
    requires forall j :: 0 <= j < i ==> steps[j].name != s.name
    requires s.status == Completed
    ensures var u := Upserted(steps, s, elapsed);
      u[i].dateStarted == steps[i].dateStarted
      && (steps[i].dateStarted != "" && s.dateFinished != "" ==>
            u[i].duration == elapsed(steps[i].dateStarted, s.dateFinished))
      && (steps[i].dateStarted == "" || s.dateFinished == "" ==> u[i].duration == s.duration)
  {
    FirstNamedIs(steps, s.name, i);
  }

  /** No two records of a list share a name. */
  predicate UniqueNames(steps: seq<StepRecord>)
  {
    forall a, b :: 0 <= a < b < |steps| ==> steps[a].name != steps[b].name
  }

  /** Upserting keeps names unique, and afterwards the step's name is present. */
  lemma UpsertKeepsNamesUnique(steps: seq<StepRecord>, s: StepRecord, elapsed: (string, string) -> string)
    requires UniqueNames(steps)
    ensures UniqueNames(Upserted(steps, s, elapsed))
    ensures exists j :: 0 <= j < |Upserted(steps, s, elapsed)| && Upserted(steps, s, elapsed)[j].name == s.name
  {
    var i := FirstNamed(steps, s.name);
    var u := Upserted(steps, s, elapsed);
    assert u[i].name == s.name;
  }

  // ---------------------------------------------------------------------------
  // Saving: `list.sort(key=name)`, a stable sort by name.

  /** Non-decreasing name order. */
  predicate SortedByName(steps: seq<StepRecord>)
  {
    forall a, b :: 0 <= a < b < |steps| ==> LexLe(steps[a].name, steps[b].name)
  }

  /** Inserts `r` before the first entry whose name is not below its own, keeping equal names in arrival order. */
  function Insert(r: StepRecord, t: seq<StepRecord>): seq<StepRecord>
  {
    if t == [] then [r]
    else if LexLe(r.name, t[0].name) then [r] + t
    else [t[0]] + Insert(r, t[1..])
  }

  /** Python's stable `sort(key=lambda step: step["name"])`, as an insertion sort. */
  function SortByName(steps: seq<StepRecord>): seq<StepRecord>
  {
    if steps == [] then [] else Insert(steps[0], SortByName(steps[1..]))
  }

  lemma {:induction false} InsertPermutes(r: StepRecord, t: seq<StepRecord>)
    ensures multiset(Insert(r, t)) == multiset(t) + multiset{r}
  {
    if t != [] && !LexLe(r.name, t[0].name) {
      InsertPermutes(r, t[1..]);
      assert t == [t[0]] + t[1..];
    }
  }

  lemma {:induction false} InsertSorted(r: StepRecord, t: seq<StepRecord>)
    requires SortedByName(t)
    ensures SortedByName(Insert(r, t))
  {
    if t == [] {
    } else if LexLe(r.name, t[0].name) {
      var u := [r] + t;
      forall a, b | 0 <= a < b < |u| ensures LexLe(u[a].name, u[b].name) {
        if a == 0 && b > 1 {
          LexLeTransitive(r.name, t[0].name, t[b - 1].name);
        }
      }
    } else {
      LexLeTotal(r.name, t[0].name);
      var tail := t[1..];
      InsertSorted(r, tail);
      forall k | 0 <= k < |tail| ensures LexLe(t[0].name, tail[k].name) {
        assert tail[k] == t[k + 1];
      }
      InsertAboveBound(t[0].name, r, tail);
      var rest := Insert(r, tail);
      var u := [t[0]] + rest;
      assert Insert(r, t) == u;
      forall a, b | 0 <= a < b < |u| ensures LexLe(u[a].name, u[b].name) {
        assert u[b] == rest[b - 1];
        if a > 0 {
          assert u[a] == rest[a - 1];
        }
      }
    }
  }

  /** Inserting an entry at or above a bound into entries at or above it keeps every entry at or above it. */
  lemma InsertAboveBound(low: string, r: StepRecord, t: seq<StepRecord>)
    requires LexLe(low, r.name) && forall k :: 0 <= k < |t| ==> LexLe(low, t[k].name)
    ensures forall b :: 0 <= b < |Insert(r, t)| ==> LexLe(low, Insert(r, t)[b].name)
  {
    var u := Insert(r, t);
    InsertPermutes(r, t);
    forall b | 0 <= b < |u| ensures LexLe(low, u[b].name) {
      assert u[b] in multiset(u);
      if u[b] != r {
        assert u[b] in multiset(t);
        var k :| 0 <= k < |t| && t[k] == u[b];
      }
    }
  }

  /** The saved list is a permutation of the list before saving. */
  lemma {:induction false} SortPermutes(steps: seq<StepRecord>)
    ensures multiset(SortByName(steps)) == multiset(steps)
  {
    if steps != [] {
      SortPermutes(steps[1..]);
      InsertPermutes(steps[0], SortByName(steps[1..]));
      assert steps == [steps[0]] + steps[1..];
    }
  }

  /** The saved list is in non-decreasing name order. */
  lemma {:induction false} SortSorts(steps: seq<StepRecord>)
    ensures SortedByName(SortByName(steps))
  {
    if steps != [] {
      SortSorts(steps[1..]);
      InsertSorted(steps[0], SortByName(steps[1..]));
    }
  }

  /** The records named `k`, in list order. */
  function Named(steps: seq<StepRecord>, k: string): seq<StepRecord>
  {
    if steps == [] then []
    else (if steps[0].name == k then [steps[0]] else []) + Named(steps[1..], k)
  }

  lemma {:induction false} InsertNamed(r: StepRecord, t: seq<StepRecord>, k: string)
    ensures Named(Insert(r, t), k) == (if r.name == k then [r] else []) + Named(t, k)
  {
    if t == [] {
    } else if LexLe(r.name, t[0].name) {
      assert ([r] + t)[1..] == t;
    } else {
      InsertNamed(r, t[1..], k);
      assert ([t[0]] + Insert(r, t[1..]))[1..] == Insert(r, t[1..]);
      if r.name == k {
        LexLeReflexive(k);
        assert t[0].name != k;
      }
    }
  }

  /** The sort is stable: records with the same name keep their relative order. */
  lemma {:induction false} SortStable(steps: seq<StepRecord>, k: string)
    ensures Named(SortByName(steps), k) == Named(steps, k)
  {
    if steps != [] {
      SortStable(steps[1..], k);
      InsertNamed(steps[0], SortByName(steps[1..]), k);
    }
  }

  /** Every project's list sorted, as `save_status` writes the table. */
  function SortedTable(data: StatusData): (t: StatusData)
    ensures t.Keys == data.Keys
  {
    map p | p in data :: SortByName(data[p])
  }

  /** The saved table has the same projects, each list sorted and a permutation of the unsaved one. */
  lemma SavedTableSorted(data: StatusData)
    ensures var t := SortedTable(data);
      t.Keys == data.Keys
      && forall p :: p in t ==> SortedByName(t[p]) && multiset(t[p]) == multiset(data[p])
  {
    forall p | p in data
      ensures SortedByName(SortedTable(data)[p]) && multiset(SortedTable(data)[p]) == multiset(data[p])
    {
      SortSorts(data[p]);
      SortPermutes(data[p]);
    }
  }

  /** Sorting a list with unique names keeps them unique. */
  lemma SortKeepsNamesUnique(steps: seq<StepRecord>)
    requires UniqueNames(steps)
    ensures UniqueNames(SortByName(steps))
  {
    var t := SortByName(steps);
    SortPermutes(steps);
    forall a, b | 0 <= a < b < |t| ensures t[a].name != t[b].name {
      if t[a].name == t[b].name {
        var k := t[a].name;
        SortStable(steps, k);
        NamedCount(t, k, a, b);
        NamedAtMostOne(steps, k);
      }
    }
  }

  /** Two distinct positions named `k` give at least two records named `k`. */
  lemma {:induction false} NamedCount(t: seq<StepRecord>, k: string, a: nat, b: nat)
    requires a < b < |t| && t[a].name == k && t[b].name == k
    ensures |Named(t, k)| >= 2
  {
    if a == 0 {
      NamedHas(t[1..], k, b - 1);
    } else {
      NamedCount(t[1..], k, a - 1, b - 1);
    }
  }

  lemma {:induction false} NamedHas(t: seq<StepRecord>, k: string, b: nat)
    requires b < |t| && t[b].name == k
    ensures |Named(t, k)| >= 1
  {
    if b > 0 {
      NamedHas(t[1..], k, b - 1);
    }
  }

  lemma {:induction false} NamedAtMostOne(t: seq<StepRecord>, k: string)
    requires UniqueNames(t)
    ensures |Named(t, k)| <= 1
  {
    if t != [] {
      assert UniqueNames(t[1..]) by {
        forall a, b | 0 <= a < b < |t[1..]| ensures t[1..][a].name != t[1..][b].name {
          assert t[1..][a] == t[a + 1] && t[1..][b] == t[b + 1];
        }
      }
      NamedAtMostOne(t[1..], k);
      if t[0].name == k {
        NamedNone(t[1..], k);
      }
    }
  }

  lemma {:induction false} NamedNone(t: seq<StepRecord>, k: string)
    requires forall j :: 0 <= j < |t| ==> t[j].name != k
    ensures Named(t, k) == []
  {
    if t != [] {
      NamedNone(t[1..], k);
    }
  }

  /** The status file; `contents` is `None` when it is missing or not valid JSON. */
  class StatusFile {
    var contents: Option<StatusData>

    constructor (contents: Option<StatusData>)
      ensures this.contents == contents
    {
      this.contents := contents;
    }

    /** `load_status`: a missing or undecodable file reads as the empty table. */
    function Load(): (data: StatusData)
      reads this
      ensures contents.None? ==> data == map[]
      ensures contents.Some? ==> data == contents.value
    {
      if contents.Some? then contents.value else map[]
    }

    /** `save_status`: sorts every project's list by name, then writes the table. */
    method Save(data: StatusData)
      modifies this
      ensures contents == Some(SortedTable(data))
    {
      var sorted: StatusData := map[];
      var todo := data.Keys;
      while todo != {}
        invariant todo <= data.Keys
        invariant sorted.Keys == data.Keys - todo
        invariant forall p :: p in sorted ==> sorted[p] == SortByName(data[p])
        decreases todo
      {
        var p :| p in todo;
        sorted := sorted[p := SortByName(data[p])];
        todo := todo - {p};
      }
      assert sorted == SortedTable(data);
      contents := Some(sorted);
    }

    /** `clear_project_steps`: an existing project's list is emptied and the table saved; otherwise nothing is written. */
    method ClearProjectSteps(project: string)
      modifies this
      ensures project in old(Load()) ==> contents == Some(SortedTable(old(Load())[project := []]))
      ensures project !in old(Load()) ==> contents == old(contents)
    {
      var data := Load();
      if project in data {
        data := data[project := []];
        Save(data);
      }
    }

    /**
     * `update_status`: loads the table, upserts `step` into the project's
     * list and saves. The `Step` object ends up equal to the record stored
     * for it.
     */
    method UpdateStatus(project: string, step: Step, elapsed: (string, string) -> string)
      modifies this, step
      ensures contents == Some(SortedTable(Updated(old(Load()), project, old(step.Record()), elapsed)))
      ensures var steps := if project in old(Load()) then old(Load())[project] else [];
        step.Record() == Stored(steps, old(step.Record()), elapsed)
    {
      var data := Load();
      var s := step.Record();
      var steps := if project in data then data[project] else [];
      ghost var original := steps;
      var i := 0;
      while i < |steps| && steps[i].name != step.name
        invariant 0 <= i <= |steps|
        invariant forall j :: 0 <= j < i ==> steps[j].name != step.name
      {
        i := i + 1;
      }
      FirstNamedIs(steps, s.name, i);
      if i < |steps| {
        if step.status == Running {
          steps := steps[i := steps[i].(dateStarted := step.dateStarted)];
        } else if step.status == Completed {
          step.dateStarted := steps[i].dateStarted;
          step.CalculateDuration(elapsed);
        }
        steps := steps[i := step.Record()];
      } else {
        step.CalculateDuration(elapsed);
        steps := steps + [step.Record()];
      }
      assert steps == Upserted(original, s, elapsed);
      data := data[project := steps];
      Save(data);
    }
  }

  // ---------------------------------------------------------------------------
  // Steps derived from log files (`update_status_from_logs`).

  /** "done" when the log-file name contains "DONE", otherwise "running". */
  function StepStatus(logFile: string): string
  {
    if Contains(logFile, "DONE") then Completed else Running
  }

  /** The status is "done" exactly when "DONE" occurs somewhere in the name. */
  lemma StepStatusIffDone(logFile: string)
    ensures StepStatus(logFile) == Completed <==> exists i: nat :: OccursAt(logFile, "DONE", i)
    ensures StepStatus(logFile) != Completed ==> StepStatus(logFile) == Running
  {
    ContainsIffOccurs(logFile, "DONE");
  }

  /** The step name: underscores become spaces and ".log" is dropped; "_DONE_" becomes one space first. */
  function StepName(logFile: string): string
  {
    if !Contains(logFile, "DONE") then
      ReplaceAll(ReplaceAll(logFile, "_", " "), ".log", "")
    else
      ReplaceAll(ReplaceAll(ReplaceAll(logFile, "_DONE_", " "), ".log", ""), "_", " ")
  }

  /** A derived step name never contains '_'. */
  lemma StepNameHasNoUnderscore(logFile: string)
    ensures '_' !in StepName(logFile)
  {
    if !Contains(logFile, "DONE") {
      ReplaceRemovesChar(logFile, '_', " ");
      ReplaceKeepsAbsent(ReplaceAll(logFile, "_", " "), ".log", "", '_');
    } else {
      ReplaceRemovesChar(ReplaceAll(ReplaceAll(logFile, "_DONE_", " "), ".log", ""), '_', " ");
    }
  }

  /**
   * The step built for one log file, or `None` when the project or the derived
   * name is empty, in which case the source records nothing.
   */
  function LogStep(project: string, logFile: string, started: string, finished: string): Option<StepRecord>
  {
    var name := StepName(logFile);
    if project != "" && name != "" then Some(StepRecord(name, StepStatus(logFile), started, finished, ""))
    else None
  }

  /** What a recorded log step holds, and that nothing is recorded for an empty project or name. */
  lemma LogStepRecorded(project: string, logFile: string, started: string, finished: string)
    ensures LogStep(project, logFile, started, finished).None? <==> project == "" || StepName(logFile) == ""
    ensures var r := LogStep(project, logFile, started, finished);
      r.Some? ==> (r.value.name != "" && '_' !in r.value.name
        && (r.value.status == Completed <==> Contains(logFile, "DONE"))
        && r.value.dateStarted == started && r.value.dateFinished == finished)
  {
    StepNameHasNoUnderscore(logFile);
  }
}
