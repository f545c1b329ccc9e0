/** The allocation pipeline of `main` and `generate_top_candidates`: for every
    task, keep the employees who have a required skill at proficiency 5 or
    more, check their shifts against the task's day windows, rank them, and
    pick the best available ones. File reading and writing are not modelled;
    the embedding-based skill matcher is the parameter `matcher`. */
module Allocator {
  import opened Wrappers
  import opened TimeWindows
  import opened Availability
  import opened Ranking

  /** One entry of an employee's `skills` dictionary, in dictionary order. */
  datatype SkillLevel = SkillLevel(name: string, level: int)

  datatype Employee = Employee(id: string, skills: seq<SkillLevel>, shifts: Shifts)

  /** A task record. An absent or empty `skillsRequired` is the empty list;
      `id` and `taskName` are read with `get`, so they may be absent. */
  datatype Task = Task(id: Option<string>, name: Option<string>, skillsRequired: seq<string>,
                       startTime: string, endTime: string)

  /** An entry of `matching_employees`. */
  datatype Candidate = Candidate(employeeId: string, skills: seq<SkillLevel>, matchedSkills: seq<SkillLevel>,
                                 shifts: Shifts, availability: Report)

  /** An entry of `all_results`. */
  datatype TaskResult = TaskResult(taskId: Option<string>, taskName: Option<string>, timeWindows: seq<Window>,
                                   requiredSkills: seq<string>, matchingEmployees: seq<Candidate>,
                                   bestCandidates: seq<Candidate>)

  /** How `main` ends: an early return for missing input, the uncaught
      `OverflowError` of a task ending on 9999-12-31, or all task results. */
  datatype RunOutcome = NoTasks | NoEmployees | Aborted | Completed(results: seq<TaskResult>)

  /** What one task contributes to `all_results`. */
  datatype TaskOutcome = Skipped | Produced(result: TaskResult) | Overflowed

  const MinProficiency := 5
  const BestCount := 3
  const TopCount := 5

  /** The `common_skills` comprehension. */
  function CommonSkills(skills: seq<SkillLevel>, required: seq<string>): (r: seq<SkillLevel>)
    ensures |r| <= |skills|
    ensures forall x :: x in r <==> x in skills && x.name in required && x.level >= MinProficiency
  {
    if skills == [] then []
    else
      (if skills[0].name in required && skills[0].level >= MinProficiency then [skills[0]] else [])
      + CommonSkills(skills[1..], required)
  }

  /** The comprehension keeps the order of the skills and each qualifying
      skill once: the skills of two runs one after the other are the two
      results one after the other; with `CommonSkillsSingle` this fixes the
      result, and so its proficiency sum. */
  lemma {:induction false} CommonSkillsConcat(a: seq<SkillLevel>, b: seq<SkillLevel>, required: seq<string>)
    ensures CommonSkills(a + b, required) == CommonSkills(a, required) + CommonSkills(b, required)
  {
    if a == [] {
      assert a + b == b;
    } else {
      var ab := a + b;
      assert ab[0] == a[0] && ab[1..] == a[1..] + b;
      CommonSkillsConcat(a[1..], b, required);
    }
  }

  /** A single skill is kept exactly when it is required and at least 5. */
  lemma CommonSkillsSingle(s: SkillLevel, required: seq<string>)
    ensures CommonSkills([s], required) == (if s.name in required && s.level >= MinProficiency then [s] else [])
  {
    assert [s][1..] == [];
  }

  /** `sum(d.values())` of a skills dictionary. */
  function SkillSum(skills: seq<SkillLevel>): int
  {
    if skills == [] then 0 else skills[0].level + SkillSum(skills[1..])
  }

  predicate IsAvailable(c: Candidate)
  {
    c.availability.isAvailable
  }

  /** The sort key `(is_available, sum of matched proficiencies, total_available_hours)`. */
  function RankKey(c: Candidate): seq<int>
  {
    [if IsAvailable(c) then 1 else 0, SkillSum(c.matchedSkills), c.availability.totalAvailableMinutes]
  }

  function MakeCandidate(e: Employee, required: seq<string>, windows: seq<Window>): Candidate
  {
    Candidate(e.id, e.skills, CommonSkills(e.skills, required), e.shifts, AvailabilityOf(e.shifts, windows))
  }

  /** What one employee adds to `matching_employees`: their entry when they
      have a common skill, nothing otherwise. */
  function MatchOf(e: Employee, required: seq<string>, windows: seq<Window>): (r: seq<Candidate>)
    ensures r == [] <==> CommonSkills(e.skills, required) == []
  {
    if CommonSkills(e.skills, required) != [] then [MakeCandidate(e, required, windows)] else []
  }

  /** `matching_employees` before sorting: in roster order, every employee with
      at least one common skill, and no one else. */
  function Matching(employees: seq<Employee>, required: seq<string>, windows: seq<Window>): (r: seq<Candidate>)
    ensures |r| <= |employees|
  {
    if employees == [] then []
    else
      MatchOf(employees[0], required, windows) + Matching(employees[1..], required, windows)
  }

  lemma {:induction false} MatchingAppend(employees: seq<Employee>, e: Employee, required: seq<string>, windows: seq<Window>)
    ensures Matching(employees + [e], required, windows) ==
      Matching(employees, required, windows) + MatchOf(e, required, windows)
  {
    var s := employees + [e];
    if employees == [] {
      assert s[1..] == [];
    } else {
      assert s[0] == employees[0] && s[1..] == employees[1..] + [e];
      MatchingAppend(employees[1..], e, required, windows);
    }
  }

  /** Exactly the employees with a common skill appear among the matches. */
  lemma {:induction false} MatchingMembers(employees: seq<Employee>, required: seq<string>, windows: seq<Window>)
    ensures forall c :: c in Matching(employees, required, windows) ==>
      exists e :: e in employees && CommonSkills(e.skills, required) != [] && c == MakeCandidate(e, required, windows)
    ensures forall e :: e in employees && CommonSkills(e.skills, required) != [] ==>
      MakeCandidate(e, required, windows) in Matching(employees, required, windows)
  {
    if employees != [] {
      var head, tail := MatchOf(employees[0], required, windows), Matching(employees[1..], required, windows);
      assert Matching(employees, required, windows) == head + tail;
      MatchingMembers(employees[1..], required, windows);
      forall c | c in head + tail
        ensures exists e :: e in employees && CommonSkills(e.skills, required) != [] && c == MakeCandidate(e, required, windows)
      {
        if c in head {
          assert employees[0] in employees && c == MakeCandidate(employees[0], required, windows);
        } else {
          var e :| e in employees[1..] && CommonSkills(e.skills, required) != [] && c == MakeCandidate(e, required, windows);
          assert e in employees;
        }
      }
      forall e | e in employees && CommonSkills(e.skills, required) != []
        ensures MakeCandidate(e, required, windows) in head + tail
      {
        if e == employees[0] {
          assert MakeCandidate(e, required, windows) in head;
        } else {
          assert e in employees[1..];
        }
      }
    }
  }

  /** The `[emp for emp in ... if emp['availability']['is_available']]` comprehension. */
  function AvailableOnly(cs: seq<Candidate>): (r: seq<Candidate>)
    ensures |r| <= |cs|
    ensures forall c :: c in r <==> c in cs && IsAvailable(c)
  {
    if cs == [] then []
    else (if IsAvailable(cs[0]) then [cs[0]] else []) + AvailableOnly(cs[1..])
  }

  /** The comprehension keeps order: filtering two runs one after the other
      gives the two filtered runs one after the other; with `AvailableOnlySingle`
      this fixes the result as the available employees in input order. */
  lemma {:induction false} AvailableOnlyConcat(a: seq<Candidate>, b: seq<Candidate>)
    ensures AvailableOnly(a + b) == AvailableOnly(a) + AvailableOnly(b)
  {
    if a == [] {
      assert a + b == b;
    } else {
      var ab := a + b;
      assert ab[0] == a[0] && ab[1..] == a[1..] + b;
      AvailableOnlyConcat(a[1..], b);
      var head := if IsAvailable(a[0]) then [a[0]] else [];
      assert AvailableOnly(ab) == head + AvailableOnly(a[1..] + b);
      assert AvailableOnly(a) == head + AvailableOnly(a[1..]);
    }
  }

  /** A single employee is kept exactly when available. */
  lemma AvailableOnlySingle(c: Candidate)
    ensures AvailableOnly([c]) == (if IsAvailable(c) then [c] else [])
  {
    assert [c][1..] == [];
  }

  /** `best_candidates`: the first three available employees of the ranking. */
  function BestOf(ranked: seq<Candidate>): seq<Candidate>
  {
    Take(AvailableOnly(ranked), BestCount)
  }

  /** The body of the loop over tasks in `main`, as a value. */
  function TaskOutcomeOf(task: Task, employees: seq<Employee>, matcher: seq<string> -> seq<string>): TaskOutcome
  {
    if task.skillsRequired == [] then Skipped
    else
      var required := matcher(task.skillsRequired);
      if required == [] then Skipped
      else match DailyWindows(task.startTime, task.endTime)
        case DateOverflow => Overflowed
        case Windows(ws) =>
          if ws == [] then Skipped
          else
            var ranked := SortDesc(Matching(employees, required, ws), RankKey);
            Produced(TaskResult(task.id, task.name, ws, required, ranked, BestOf(ranked)))
  }

  /** `all_results` after the given tasks, or `None` once a task overflowed. */
  function ResultsOf(tasks: seq<Task>, employees: seq<Employee>, matcher: seq<string> -> seq<string>): Option<seq<TaskResult>>
  {
    if tasks == [] then Some([])
    else match ResultsOf(tasks[..|tasks| - 1], employees, matcher)
      case None => None
      case Some(rs) =>
        match TaskOutcomeOf(tasks[|tasks| - 1], employees, matcher)
        case Overflowed => None
        case Skipped => Some(rs)
        case Produced(r) => Some(rs + [r])
  }

  function RunOf(tasks: seq<Task>, employees: seq<Employee>, matcher: seq<string> -> seq<string>): RunOutcome
  {
    if tasks == [] then NoTasks
    else if employees == [] then NoEmployees
    else match ResultsOf(tasks, employees, matcher)
      case None => Aborted
      case Some(rs) => Completed(rs)
  }

  lemma ResultsStep(tasks: seq<Task>, i: int, employees: seq<Employee>, matcher: seq<string> -> seq<string>)
    requires 0 <= i < |tasks|
    ensures ResultsOf(tasks[..i + 1], employees, matcher) ==
      match ResultsOf(tasks[..i], employees, matcher)
      case None => None
      case Some(rs) =>
        match TaskOutcomeOf(tasks[i], employees, matcher)
        case Overflowed => None
        case Skipped => Some(rs)
        case Produced(r) => Some(rs + [r])
  {
    assert tasks[..i + 1][..i] == tasks[..i];
  }

  /** Once a task has overflowed, no later task can bring the run back. */
  lemma {:induction false} AbortIsFinal(tasks: seq<Task>, i: int, employees: seq<Employee>, matcher: seq<string> -> seq<string>)
    requires 0 <= i <= |tasks|
    requires ResultsOf(tasks[..i], employees, matcher).None?
    ensures ResultsOf(tasks, employees, matcher).None?
    decreases |tasks| - i
  {
    if i < |tasks| {
      ResultsStep(tasks, i, employees, matcher);
      AbortIsFinal(tasks, i + 1, employees, matcher);
    } else {
      assert tasks[..i] == tasks;
    }
  }

  lemma MatchingStep(employees: seq<Employee>, i: int, required: seq<string>, windows: seq<Window>)
    requires 0 <= i < |employees|
    ensures Matching(employees[..i + 1], required, windows) == Matching(employees[..i], required, windows) +
      (if CommonSkills(employees[i].skills, required) != [] then [MakeCandidate(employees[i], required, windows)] else [])
  {
    MatchingAppend(employees[..i], employees[i], required, windows);
    assert employees[..i + 1] == employees[..i] + [employees[i]];
  }

  /** The matching loop over the roster. */
  method MatchEmployees(employees: seq<Employee>, required: seq<string>, windows: seq<Window>)
    returns (matching: seq<Candidate>)
    ensures matching == Matching(employees, required, windows)
  {
    matching := [];
    for i := 0 to |employees|
      invariant matching == Matching(employees[..i], required, windows)
    {
      var employee := employees[i];
      MatchingStep(employees, i, required, windows);
      var common := CommonSkills(employee.skills, required);
      if common != [] {
        var availability := CheckEmployeeAvailability(employee.shifts, windows);
        matching := matching + [Candidate(employee.id, employee.skills, common, employee.shifts, availability)];
      }
    }
    assert employees[..|employees|] == employees;
  }

  /** `main` without its file input and output. */
  method Allocate(tasks: seq<Task>, employees: seq<Employee>, matcher: seq<string> -> seq<string>)
    returns (outcome: RunOutcome)
    ensures outcome == RunOf(tasks, employees, matcher)
  {
    if tasks == [] {
      return NoTasks;
    }
    if employees == [] {
      return NoEmployees;
    }
    var results: seq<TaskResult> := [];
    for i := 0 to |tasks|
      invariant ResultsOf(tasks[..i], employees, matcher) == Some(results)
    {
      var task := tasks[i];
      ResultsStep(tasks, i, employees, matcher);
      if task.skillsRequired == [] {
        assert TaskOutcomeOf(task, employees, matcher) == Skipped;
        continue;
      }
      var required := matcher(task.skillsRequired);
      if required == [] {
        assert TaskOutcomeOf(task, employees, matcher) == Skipped;
        continue;
      }
      var windows := CalculateDailyTimeWindows(task.startTime, task.endTime);
      if windows.DateOverflow? {
        assert TaskOutcomeOf(task, employees, matcher) == Overflowed;
        AbortIsFinal(tasks, i + 1, employees, matcher);
        return Aborted;
      }
      if windows.windows == [] {
        assert TaskOutcomeOf(task, employees, matcher) == Skipped;
        continue;
      }
      var matching := MatchEmployees(employees, required, windows.windows);
      var ranked := SortDesc(matching, RankKey);
      var best := BestOf(ranked);
      var result := TaskResult(task.id, task.name, windows.windows, required, ranked, best);
      assert TaskOutcomeOf(task, employees, matcher) == Produced(result);
      results := results + [result];
    }
    assert tasks[..|tasks|] == tasks;
    outcome := Completed(results);
  }

  // ---------------------------------------------------------------------------
  // The ranking

  /** Python's comparison of two three-element tuples, written out. */
  lemma LexLess3(a: seq<int>, b: seq<int>)
    requires |a| == 3 && |b| == 3
    ensures !LexLess(a, b) <==> a[0] > b[0] || (a[0] == b[0] && (a[1] > b[1] || (a[1] == b[1] && a[2] >= b[2])))
  {
    var a1, b1 := a[1..], b[1..];
    var a2, b2 := a1[1..], b1[1..];
    assert a2[1..] == [] && b2[1..] == [];
    assert a1[0] == a[1] && b1[0] == b[1] && a2[0] == a[2] && b2[0] == b[2];
    assert LexLess(a2, b2) == (a2[0] < b2[0]);
    assert LexLess(a1, b1) == (a1[0] < b1[0] || (a1[0] == b1[0] && LexLess(a2, b2)));
  }

  /** Every available employee precedes every unavailable one. */
  predicate AvailableFirst(cs: seq<Candidate>)
  {
    forall i, j :: 0 <= i < j < |cs| && IsAvailable(cs[j]) ==> IsAvailable(cs[i])
  }

  /** After the sort: a permutation of the matches, available employees first,
      then by matched proficiency sum and by available time, both
      non-increasing, and equal keys in roster order. */
  lemma RankedOrder(matching: seq<Candidate>)
    ensures var ranked := SortDesc(matching, RankKey);
      && multiset(ranked) == multiset(matching)
      && AvailableFirst(ranked)
      && (forall i, j :: 0 <= i < j < |ranked| && IsAvailable(ranked[i]) == IsAvailable(ranked[j]) ==>
            SkillSum(ranked[i].matchedSkills) >= SkillSum(ranked[j].matchedSkills))
      && (forall i, j :: (0 <= i < j < |ranked| && IsAvailable(ranked[i]) == IsAvailable(ranked[j]) &&
            SkillSum(ranked[i].matchedSkills) == SkillSum(ranked[j].matchedSkills)) ==>
            ranked[i].availability.totalAvailableMinutes >= ranked[j].availability.totalAvailableMinutes)
      && (forall k :: WithKey(ranked, RankKey, k) == WithKey(matching, RankKey, k))
  {
    var ranked := SortDesc(matching, RankKey);
    SortDescSorted(matching, RankKey);
    forall i, j | 0 <= i < j < |ranked|
      ensures IsAvailable(ranked[j]) ==> IsAvailable(ranked[i])
      ensures IsAvailable(ranked[i]) == IsAvailable(ranked[j]) ==>
        SkillSum(ranked[i].matchedSkills) >= SkillSum(ranked[j].matchedSkills)
      ensures (IsAvailable(ranked[i]) == IsAvailable(ranked[j]) &&
        SkillSum(ranked[i].matchedSkills) == SkillSum(ranked[j].matchedSkills)) ==>
        ranked[i].availability.totalAvailableMinutes >= ranked[j].availability.totalAvailableMinutes
    {
      LexLess3(RankKey(ranked[i]), RankKey(ranked[j]));
    }
    forall k
      ensures WithKey(ranked, RankKey, k) == WithKey(matching, RankKey, k)
    {
      SortDescStable(matching, RankKey, k);
    }
  }

  /** In a list with available employees first, the available ones form a prefix. */
  lemma {:induction false} AvailablePrefix(cs: seq<Candidate>)
    requires AvailableFirst(cs)
    ensures AvailableOnly(cs) == cs[..|AvailableOnly(cs)|]
  {
    if cs != [] {
      if IsAvailable(cs[0]) {
        AvailableFirstTail(cs);
        AvailablePrefix(cs[1..]);
        var rest := AvailableOnly(cs[1..]);
        assert AvailableOnly(cs) == [cs[0]] + rest;
        assert rest == cs[1..][..|rest|];
        assert cs[..|rest| + 1] == [cs[0]] + cs[1..][..|rest|];
      } else {
        UnavailableHead(cs);
      }
    }
  }

  /** With available employees first, an unavailable head means nobody is available. */
  lemma UnavailableHead(cs: seq<Candidate>)
    requires cs != [] && AvailableFirst(cs) && !IsAvailable(cs[0])
    ensures AvailableOnly(cs) == []
  {
    forall c | c in cs
      ensures !IsAvailable(c)
    {
      var j :| 0 <= j < |cs| && cs[j] == c;
      assert j == 0 || !IsAvailable(cs[j]);
    }
    NoneAvailable(cs);
  }

  lemma AvailableFirstTail(cs: seq<Candidate>)
    requires cs != [] && AvailableFirst(cs)
    ensures AvailableFirst(cs[1..])
  {
    forall i, j | 0 <= i < j < |cs[1..]| && IsAvailable(cs[1..][j])
      ensures IsAvailable(cs[1..][i])
    {
      assert cs[1..][i] == cs[i + 1] && cs[1..][j] == cs[j + 1];
    }
  }

  lemma {:induction false} NoneAvailable(cs: seq<Candidate>)
    requires forall c :: c in cs ==> !IsAvailable(c)
    ensures AvailableOnly(cs) == []
  {
    if cs != [] {
      assert forall c :: c in cs[1..] ==> c in cs;
      NoneAvailable(cs[1..]);
    }
  }

  /** `best_candidates` is the ranking's first three employees when that many
      are available, and all available ones otherwise. */
  lemma BestIsRankingPrefix(ranked: seq<Candidate>)
    requires AvailableFirst(ranked)
    ensures var k := |AvailableOnly(ranked)|;
      BestOf(ranked) == ranked[..if k < BestCount then k else BestCount]
    ensures forall c :: c in BestOf(ranked) ==> IsAvailable(c)
  {
    AvailablePrefix(ranked);
  }

  // ---------------------------------------------------------------------------
  // One task

  /** A task is skipped exactly when it lists no skills, none of its skills is
      recognised, or its span yields no window. */
  lemma TaskSkippedCases(task: Task, employees: seq<Employee>, matcher: seq<string> -> seq<string>)
    ensures TaskOutcomeOf(task, employees, matcher) == Skipped <==>
      task.skillsRequired == [] || matcher(task.skillsRequired) == [] ||
      DailyWindows(task.startTime, task.endTime) == Windows([])
    ensures TaskOutcomeOf(task, employees, matcher) == Overflowed <==>
      task.skillsRequired != [] && matcher(task.skillsRequired) != [] &&
      DailyWindows(task.startTime, task.endTime).DateOverflow?
  {
  }

  /** A produced result ranks exactly the matching employees and takes as best
      candidates the available prefix of that ranking, at most three long. */
  lemma ProducedResult(task: Task, employees: seq<Employee>, matcher: seq<string> -> seq<string>)
    requires TaskOutcomeOf(task, employees, matcher).Produced?
    ensures var r := TaskOutcomeOf(task, employees, matcher).result;
      && r.timeWindows != [] && r.requiredSkills == matcher(task.skillsRequired)
      && multiset(r.matchingEmployees) == multiset(Matching(employees, r.requiredSkills, r.timeWindows))
      && AvailableFirst(r.matchingEmployees)
      && |r.bestCandidates| <= BestCount
      && r.bestCandidates == r.matchingEmployees[..|r.bestCandidates|]
      && (forall c :: c in r.bestCandidates ==> IsAvailable(c))
      && (|r.bestCandidates| < BestCount ==> forall c :: c in r.matchingEmployees && IsAvailable(c) ==> c in r.bestCandidates)
  {
    var r := TaskOutcomeOf(task, employees, matcher).result;
    RankedOrder(Matching(employees, r.requiredSkills, r.timeWindows));
    BestIsRankingPrefix(r.matchingEmployees);
    AvailablePrefix(r.matchingEmployees);
  }
}
