/** `generate_top_candidates`: for every task result, the available matching
    employees with their matched-proficiency sum, stably sorted by that sum in
    non-increasing order and cut to five; a task with no available employee
    gets no entry. Writing the file is not modelled. */
module TopCandidates {
  import opened Wrappers
  import opened Ranking
  import opened Allocator

  /** An employee record extended with `skill_sum`, `task_id` and `task_name`. */
  datatype TopEntry = TopEntry(candidate: Candidate, skillSum: int, taskId: Option<string>, taskName: Option<string>)

  /** An entry of the returned list. */
  datatype TopList = TopList(taskId: Option<string>, taskName: Option<string>, requiredSkills: seq<string>,
                             topCandidates: seq<TopEntry>)

  function MakeEntry(c: Candidate, taskId: Option<string>, taskName: Option<string>): TopEntry
  {
    TopEntry(c, SkillSum(c.matchedSkills), taskId, taskName)
  }

  /** What one match adds to `available_employees`. */
  function EntryOf(c: Candidate, taskId: Option<string>, taskName: Option<string>): seq<TopEntry>
  {
    if IsAvailable(c) then [MakeEntry(c, taskId, taskName)] else []
  }

  /** `available_employees` before sorting: the available matches in ranking order. */
  function Entries(cs: seq<Candidate>, taskId: Option<string>, taskName: Option<string>): (r: seq<TopEntry>)
    ensures |r| <= |cs|
    ensures forall e :: e in r ==>
      e.candidate in cs && IsAvailable(e.candidate) && e == MakeEntry(e.candidate, taskId, taskName)
  {
    if cs == [] then []
    else EntryOf(cs[0], taskId, taskName) + Entries(cs[1..], taskId, taskName)
  }

  /** The sort key `skill_sum`, as a one-element tuple. */
  function SumKey(e: TopEntry): seq<int>
  {
    [e.skillSum]
  }

  /** `top_5` of one task result. */
  function TopOf(r: TaskResult): seq<TopEntry>
  {
    Take(SortDesc(Entries(r.matchingEmployees, r.taskId, r.taskName), SumKey), TopCount)
  }

  function ListOf(r: TaskResult): TopList
  {
    TopList(r.taskId, r.taskName, r.requiredSkills, TopOf(r))
  }

  /** What one task result adds to the returned list, given its `top_5`. */
  function ListWith(r: TaskResult, top: seq<TopEntry>): seq<TopList>
  {
    if top != [] then [TopList(r.taskId, r.taskName, r.requiredSkills, top)] else []
  }

  function ListFor(r: TaskResult): seq<TopList>
  {
    ListWith(r, TopOf(r))
  }

  /** The returned `top_candidates` list, in task order. */
  function TopListsOf(results: seq<TaskResult>): (r: seq<TopList>)
    ensures |r| <= |results|
  {
    if results == [] then []
    else ListFor(results[0]) + TopListsOf(results[1..])
  }

  lemma {:induction false} EntriesAppend(cs: seq<Candidate>, c: Candidate, taskId: Option<string>, taskName: Option<string>)
    ensures Entries(cs + [c], taskId, taskName) == Entries(cs, taskId, taskName) + EntryOf(c, taskId, taskName)
  {
    var s := cs + [c];
    if cs == [] {
      assert s[1..] == [];
    } else {
      assert s[0] == cs[0] && s[1..] == cs[1..] + [c];
      EntriesAppend(cs[1..], c, taskId, taskName);
    }
  }

  lemma {:induction false} TopListsAppend(results: seq<TaskResult>, r: TaskResult)
    ensures TopListsOf(results + [r]) == TopListsOf(results) + ListFor(r)
  {
    if results == [] {
      assert (results + [r])[1..] == [];
    } else {
      var rs := results + [r];
      assert rs[0] == results[0] && rs[1..] == results[1..] + [r];
      TopListsAppend(results[1..], r);
    }
  }

  /** The lists of two runs of results one after the other are the two runs'
      lists one after the other; with `TopListsSingle`, one list per task with
      an available match, in task order. */
  lemma {:induction false} TopListsConcat(a: seq<TaskResult>, b: seq<TaskResult>)
    ensures TopListsOf(a + b) == TopListsOf(a) + TopListsOf(b)
  {
    if a == [] {
      assert a + b == b;
    } else {
      var ab := a + b;
      assert ab[0] == a[0] && ab[1..] == a[1..] + b;
      TopListsConcat(a[1..], b);
    }
  }

  /** A single result gives its own list when it has an available match, and
      nothing otherwise. */
  lemma TopListsSingle(r: TaskResult)
    ensures TopListsOf([r]) == (if TopOf(r) != [] then [ListOf(r)] else [])
  {
    assert [r][1..] == [];
  }

  lemma TopListsStep(results: seq<TaskResult>, i: int, top: seq<TopEntry>)
    requires 0 <= i < |results| && top == TopOf(results[i])
    ensures TopListsOf(results[..i + 1]) == TopListsOf(results[..i]) + ListWith(results[i], top)
  {
    var r := results[i];
    assert results[..i + 1] == results[..i] + [r];
    TopListsAppend(results[..i], r);
    assert ListFor(r) == ListWith(r, top);
  }

  /** The inner loop of `generate_top_candidates`: collect the available
      matches of one task result with their proficiency sums. */
  method CollectAvailable(r: TaskResult) returns (available: seq<TopEntry>)
    ensures available == Entries(r.matchingEmployees, r.taskId, r.taskName)
  {
    var cs := r.matchingEmployees;
    available := [];
    for j := 0 to |cs|
      invariant available == Entries(cs[..j], r.taskId, r.taskName)
    {
      var emp := cs[j];
      EntriesAppend(cs[..j], emp, r.taskId, r.taskName);
      assert cs[..j + 1] == cs[..j] + [emp];
      if emp.availability.isAvailable {
        var skillSum := SkillSum(emp.matchedSkills);
        var entry := TopEntry(emp, skillSum, r.taskId, r.taskName);
        assert EntryOf(emp, r.taskId, r.taskName) == [entry];
        available := available + [entry];
      } else {
        assert EntryOf(emp, r.taskId, r.taskName) == [];
      }
    }
    assert cs[..|cs|] == cs;
  }

  /** The outer loop of `generate_top_candidates`. */
  method GenerateTopCandidates(results: seq<TaskResult>) returns (tops: seq<TopList>)
    ensures tops == TopListsOf(results)
  {
    tops := [];
    for i := 0 to |results|
      invariant tops == TopListsOf(results[..i])
    {
      var r := results[i];
      var available := CollectAvailable(r);
      var sorted := SortDesc(available, SumKey);
      var top := Take(sorted, TopCount);
      TopListsStep(results, i, top);
      if top != [] {
        tops := tops + [TopList(r.taskId, r.taskName, r.requiredSkills, top)];
      }
    }
    assert results[..|results|] == results;
  }

  // ---------------------------------------------------------------------------
  // Properties

  lemma LexLess1(a: seq<int>, b: seq<int>)
    requires |a| == 1 && |b| == 1
    ensures LexLess(a, b) <==> a[0] < b[0]
  {
    assert a[1..] == [] && b[1..] == [];
  }

  /** No available employee is lost before the cut. */
  lemma {:induction false} EntriesComplete(cs: seq<Candidate>, taskId: Option<string>, taskName: Option<string>)
    ensures forall c :: c in cs && IsAvailable(c) ==> MakeEntry(c, taskId, taskName) in Entries(cs, taskId, taskName)
  {
    if cs != [] {
      EntriesComplete(cs[1..], taskId, taskName);
      assert forall c :: c in cs ==> c == cs[0] || c in cs[1..];
    }
  }

  /** One task's `top_5`: at most five available matches of that task, each
      carrying its own proficiency sum and the task's id and name, in
      non-increasing order of that sum; no employee left out has a larger sum
      than one kept; and it is empty exactly when no match is available. */
  lemma TopOfProperties(r: TaskResult)
    ensures var top := TopOf(r);
      && |top| <= TopCount
      && (forall e :: e in top ==>
            e.candidate in r.matchingEmployees && IsAvailable(e.candidate) &&
            e.skillSum == SkillSum(e.candidate.matchedSkills) && e.taskId == r.taskId && e.taskName == r.taskName)
      && (forall i, j :: 0 <= i < j < |top| ==> top[i].skillSum >= top[j].skillSum)
      && (top == [] <==> forall c :: c in r.matchingEmployees ==> !IsAvailable(c))
    ensures var sorted := SortDesc(Entries(r.matchingEmployees, r.taskId, r.taskName), SumKey);
      && multiset(sorted) == multiset(Entries(r.matchingEmployees, r.taskId, r.taskName))
      && TopOf(r) == sorted[..|TopOf(r)|]
      && (forall i, j :: 0 <= i < |TopOf(r)| <= j < |sorted| ==> sorted[i].skillSum >= sorted[j].skillSum)
  {
    var entries := Entries(r.matchingEmployees, r.taskId, r.taskName);
    var sorted := SortDesc(entries, SumKey);
    var top := TopOf(r);
    SortDescSorted(entries, SumKey);
    forall i, j | 0 <= i < j < |sorted|
      ensures sorted[i].skillSum >= sorted[j].skillSum
    {
      LexLess1(SumKey(sorted[i]), SumKey(sorted[j]));
    }
    forall e | e in top
      ensures e in entries
    {
      assert e in sorted;
      assert e in multiset(sorted);
    }
    if top == [] {
      assert |entries| == |sorted| == 0;
      EntriesComplete(r.matchingEmployees, r.taskId, r.taskName);
    } else {
      var e := top[0];
      assert e in entries;
    }
  }

  /** One list per task result that has an available match, in task order,
      and no other lists. */
  lemma {:induction false} TopListsMembers(results: seq<TaskResult>)
    ensures forall t :: t in TopListsOf(results) ==> exists r :: r in results && TopOf(r) != [] && t == ListOf(r)
    ensures forall r :: r in results && TopOf(r) != [] ==> ListOf(r) in TopListsOf(results)
    ensures forall t :: t in TopListsOf(results) ==> 1 <= |t.topCandidates| <= TopCount
  {
    if results != [] {
      var head, tail := ListFor(results[0]), TopListsOf(results[1..]);
      assert TopListsOf(results) == head + tail;
      TopListsMembers(results[1..]);
      forall t | t in TopListsOf(results)
        ensures (exists r :: r in results && TopOf(r) != [] && t == ListOf(r)) && 1 <= |t.topCandidates| <= TopCount
      {
        if t in head {
          assert t == ListOf(results[0]) && results[0] in results;
        } else {
          assert t in tail;
          var r :| r in results[1..] && TopOf(r) != [] && t == ListOf(r);
          assert r in results;
        }
      }
      forall r | r in results && TopOf(r) != []
        ensures ListOf(r) in TopListsOf(results)
      {
        if r == results[0] {
          assert ListOf(r) in head;
        } else {
          assert r in results[1..];
        }
      }
    }
  }

  // ---------------------------------------------------------------------------
  // Agreement with `best_candidates`

  function Candidates(es: seq<TopEntry>): (r: seq<Candidate>)
    ensures |r| == |es|
    ensures forall i :: 0 <= i < |es| ==> r[i] == es[i].candidate
  {
    if es == [] then [] else [es[0].candidate] + Candidates(es[1..])
  }

  lemma {:induction false} EntriesCandidates(cs: seq<Candidate>, taskId: Option<string>, taskName: Option<string>)
    ensures Candidates(Entries(cs, taskId, taskName)) == AvailableOnly(cs)
  {
    if cs != [] {
      EntriesCandidates(cs[1..], taskId, taskName);
      CandidatesAppend(EntryOf(cs[0], taskId, taskName), Entries(cs[1..], taskId, taskName));
    }
  }

  lemma CandidatesAppend(a: seq<TopEntry>, b: seq<TopEntry>)
    ensures Candidates(a + b) == Candidates(a) + Candidates(b)
  {
  }

  /** Available matches ordered by non-increasing proficiency sum. */
  predicate SumOrdered(cs: seq<Candidate>)
  {
    forall i, j :: 0 <= i < j < |cs| && IsAvailable(cs[i]) && IsAvailable(cs[j]) ==>
      SkillSum(cs[i].matchedSkills) >= SkillSum(cs[j].matchedSkills)
  }

  /** Every entry after an available first match has no larger sum than it. */
  lemma HeadNotBelow(cs: seq<Candidate>, taskId: Option<string>, taskName: Option<string>)
    requires cs != [] && IsAvailable(cs[0]) && SumOrdered(cs)
    ensures forall e :: e in Entries(cs[1..], taskId, taskName) ==> e.skillSum <= SkillSum(cs[0].matchedSkills)
  {
    forall e | e in Entries(cs[1..], taskId, taskName)
      ensures e.skillSum <= SkillSum(cs[0].matchedSkills)
    {
      var k :| 0 <= k < |cs[1..]| && cs[1..][k] == e.candidate;
      assert cs[k + 1] == e.candidate;
    }
  }

  lemma ConsSorted(x: TopEntry, rest: seq<TopEntry>)
    requires SortedDesc(rest, SumKey)
    requires forall e :: e in rest ==> e.skillSum <= x.skillSum
    ensures SortedDesc([x] + rest, SumKey)
  {
    var s := [x] + rest;
    forall i, j | 0 <= i < j < |s|
      ensures !LexLess(SumKey(s[i]), SumKey(s[j]))
    {
      LexLess1(SumKey(s[i]), SumKey(s[j]));
      if i == 0 {
        assert s[j] in rest;
      } else {
        assert s[i] == rest[i - 1] && s[j] == rest[j - 1];
      }
    }
  }

  lemma SumOrderedTail(cs: seq<Candidate>)
    requires cs != [] && SumOrdered(cs)
    ensures SumOrdered(cs[1..])
  {
    forall i, j | 0 <= i < j < |cs[1..]| && IsAvailable(cs[1..][i]) && IsAvailable(cs[1..][j])
      ensures SkillSum(cs[1..][i].matchedSkills) >= SkillSum(cs[1..][j].matchedSkills)
    {
      assert cs[1..][i] == cs[i + 1] && cs[1..][j] == cs[j + 1];
    }
  }

  lemma {:induction false} EntriesSorted(cs: seq<Candidate>, taskId: Option<string>, taskName: Option<string>)
    requires SumOrdered(cs)
    ensures SortedDesc(Entries(cs, taskId, taskName), SumKey)
  {
    if cs != [] {
      SumOrderedTail(cs);
      EntriesSorted(cs[1..], taskId, taskName);
      if IsAvailable(cs[0]) {
        HeadNotBelow(cs, taskId, taskName);
        ConsSorted(MakeEntry(cs[0], taskId, taskName), Entries(cs[1..], taskId, taskName));
      }
    }
  }

  lemma {:induction false} CandidatesTake(es: seq<TopEntry>, n: nat)
    ensures Candidates(Take(es, n)) == Take(Candidates(es), n)
  {
  }

  /** From a ranking ordered by sum among the available, the top list's first
      three entries are the first three available matches. */
  lemma TopPrefix(ranked: seq<Candidate>, r: TaskResult)
    requires SumOrdered(ranked) && r.matchingEmployees == ranked
    ensures Candidates(Take(TopOf(r), BestCount)) == Take(AvailableOnly(ranked), BestCount)
  {
    var entries := Entries(ranked, r.taskId, r.taskName);
    EntriesSorted(ranked, r.taskId, r.taskName);
    SortDescOfSorted(entries, SumKey);
    assert TopOf(r) == Take(entries, TopCount);
    assert Take(Take(entries, TopCount), BestCount) == Take(entries, BestCount);
    CandidatesTake(entries, BestCount);
    EntriesCandidates(ranked, r.taskId, r.taskName);
  }

  lemma RankingSumOrdered(matching: seq<Candidate>)
    ensures SumOrdered(SortDesc(matching, RankKey))
  {
    RankedOrder(matching);
  }

  /** When the matches come from `main`'s ranking, the first three entries of
      a task's `top_5` are that task's `best_candidates`, in the same order:
      the second sort only reorders within equal keys, which it keeps stable. */
  lemma TopAgreesWithBest(task: Task, employees: seq<Employee>, matcher: seq<string> -> seq<string>)
    requires TaskOutcomeOf(task, employees, matcher).Produced?
    ensures var r := TaskOutcomeOf(task, employees, matcher).result;
      Candidates(Take(TopOf(r), BestCount)) == r.bestCandidates
  {
    var r := TaskOutcomeOf(task, employees, matcher).result;
    RankingSumOrdered(Matching(employees, r.requiredSkills, r.timeWindows));
    TopPrefix(r.matchingEmployees, r);
  }
}
