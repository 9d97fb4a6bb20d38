/**
 * The playbook structure linter: every play of a playbook must run the seven
 * Trinity tasks GATHER, PROCESS, APPLY, VERIFY, AUDIT, REPORT, FINALIZE in
 * this order. A task is canonical when its upper-cased name contains one of
 * the seven keywords; the i-th canonical task must contain the i-th keyword.
 *
 * Each playbook file is given as its parsed YAML document.
 */
module PlaybookLinter {
  import opened Text

  const RequiredTasks: seq<string> := ["GATHER", "PROCESS", "APPLY", "VERIFY", "AUDIT", "REPORT", "FINALIZE"]

  /** An entry of a play's `tasks` list: a mapping (with an optional `name`) or anything else. */
  datatype Task = TaskMapping(name: Option<string>) | NotAMapping

  /** A play; `tasks` is `None` when the key is absent. */
  datatype Play = Play(tasks: Option<seq<Task>>)

  /** A playbook file: a YAML parse error, a document that is not a list, or a list of plays. */
  datatype PlaybookFile = ParseError | NotAList | Plays(plays: seq<Play>)

  /** `play.get("tasks", [])` */
  function TasksOf(p: Play): seq<Task> {
    p.tasks.GetOr([])
  }

  /** The upper-cased name of one task, if it is a mapping; a missing name gives `""`. */
  function NameOf(t: Task): seq<string> {
    match t
    case NotAMapping => []
    case TaskMapping(name) => [Upper(name.GetOr(""))]
  }

  /** `task_names`: the upper-cased names of the mapping tasks, in order. */
  function TaskNames(tasks: seq<Task>): (names: seq<string>)
    ensures |names| <= |tasks|
    ensures forall k :: 0 <= k < |names| ==> NoLower(names[k])
  {
    if tasks == [] then [] else NameOf(tasks[0]) + TaskNames(tasks[1..])
  }

  /** Some required keyword occurs in `name`. */
  predicate IsCanonical(name: string) {
    exists r :: 0 <= r < |RequiredTasks| && Contains(name, RequiredTasks[r])
  }

  /** `found_canonical`: the names that contain a required keyword, in order. */
  function CanonicalNames(names: seq<string>): (found: seq<string>)
    ensures |found| <= |names|
    ensures forall k :: 0 <= k < |found| ==> IsCanonical(found[k])
  {
    if names == [] then []
    else (if IsCanonical(names[0]) then [names[0]] else []) + CanonicalNames(names[1..])
  }

  /** The canonical task names of a play. */
  function FoundCanonical(p: Play): seq<string> {
    CanonicalNames(TaskNames(TasksOf(p)))
  }

  /** A play passes: at least seven canonical tasks, the i-th containing the i-th keyword. */
  predicate PlayPasses(p: Play) {
    var found := FoundCanonical(p);
    |found| >= |RequiredTasks| && forall i :: 0 <= i < |RequiredTasks| ==> Contains(found[i], RequiredTasks[i])
  }

  /** A playbook passes when it is a list and every play passes. */
  predicate PlaybookPasses(f: PlaybookFile) {
    f.Plays? && forall p :: 0 <= p < |f.plays| ==> PlayPasses(f.plays[p])
  }

  /** The `j`-th canonical name exists and contains the `j`-th keyword. */
  predicate MatchesAt(found: seq<string>, j: int)
    requires 0 <= j < |RequiredTasks|
  {
    j < |found| && Contains(found[j], RequiredTasks[j])
  }

  /** The first `n` required keywords occur, in order, in the first `n` canonical names. */
  predicate InOrderUpTo(found: seq<string>, n: int)
    requires 0 <= n <= |RequiredTasks|
  {
    forall j :: 0 <= j < n ==> MatchesAt(found, j)
  }

  lemma InOrderStep(found: seq<string>, i: int)
    requires 0 <= i < |RequiredTasks|
    ensures InOrderUpTo(found, i + 1) == (InOrderUpTo(found, i) && MatchesAt(found, i))
  {
  }

  lemma InOrderAll(found: seq<string>)
    ensures InOrderUpTo(found, |RequiredTasks|)
            == (|found| >= |RequiredTasks| && forall i :: 0 <= i < |RequiredTasks| ==> Contains(found[i], RequiredTasks[i]))
  {
    if InOrderUpTo(found, |RequiredTasks|) {
      assert MatchesAt(found, |RequiredTasks| - 1);
      forall i | 0 <= i < |RequiredTasks| ensures Contains(found[i], RequiredTasks[i]) {
        assert MatchesAt(found, i);
      }
    }
    if |found| >= |RequiredTasks| && forall i :: 0 <= i < |RequiredTasks| ==> Contains(found[i], RequiredTasks[i]) {
      forall j | 0 <= j < |RequiredTasks| ensures MatchesAt(found, j) {
      }
    }
  }

  /** The order check of one play; `allValid` is cleared by a missing or misordered task. */
  method CheckPlayOrder(found: seq<string>, valid: bool) returns (allValid: bool)
    ensures allValid == (valid && |found| >= |RequiredTasks|
                         && forall i :: 0 <= i < |RequiredTasks| ==> Contains(found[i], RequiredTasks[i]))
  {
    allValid := valid;
    for i := 0 to |RequiredTasks|
      invariant allValid == (valid && InOrderUpTo(found, i))
    {
      if i >= |found| {
        allValid := false;
      } else if !Contains(found[i], RequiredTasks[i]) {
        allValid := false;
      }
      InOrderStep(found, i);
    }
    InOrderAll(found);
  }

  /** `lint_playbook`: reject unparsable and non-list documents, then check every play. */
  method LintPlaybook(f: PlaybookFile) returns (ok: bool)
    ensures ok == PlaybookPasses(f)
  {
    if f.ParseError? || f.NotAList? {
      return false;
    }
    ok := true;
    for p := 0 to |f.plays|
      invariant ok == forall q :: 0 <= q < p ==> PlayPasses(f.plays[q])
    {
      var names := TaskNames(TasksOf(f.plays[p]));
      var found := CanonicalNames(names);
      ok := CheckPlayOrder(found, ok);
    }
  }

  /** `main`: exit 1 without arguments; otherwise lint every file and exit 0 only if all pass. */
  method LintFiles(files: seq<PlaybookFile>) returns (code: int, verdicts: seq<bool>)
    ensures |files| == 0 ==> code == 1 && verdicts == []
    ensures |files| > 0 ==> |verdicts| == |files| && forall i :: 0 <= i < |files| ==> verdicts[i] == PlaybookPasses(files[i])
    ensures |files| > 0 ==> (code == 0 <==> forall i :: 0 <= i < |files| ==> PlaybookPasses(files[i]))
    ensures code == 0 || code == 1
  {
    if |files| == 0 {
      return 1, [];
    }
    var overall := true;
    verdicts := [];
    for i := 0 to |files|
      invariant |verdicts| == i
      invariant forall j :: 0 <= j < i ==> verdicts[j] == PlaybookPasses(files[j])
      invariant overall == forall j :: 0 <= j < i ==> PlaybookPasses(files[j])
    {
      var ok := LintPlaybook(files[i]);
      verdicts := verdicts + [ok];
      if !ok {
        overall := false;
      }
    }
    code := if overall then 0 else 1;
  }

  /** Names distribute over concatenated task lists. */
  lemma {:induction false} TaskNamesAppend(a: seq<Task>, b: seq<Task>)
    ensures TaskNames(a + b) == TaskNames(a) + TaskNames(b)
  {
    if a != [] {
      assert (a + b)[0] == a[0] && (a + b)[1..] == a[1..] + b;
      TaskNamesAppend(a[1..], b);
    } else {
      assert a + b == b;
    }
  }

  /** The canonical filter distributes over concatenation. */
  lemma {:induction false} CanonicalAppend(a: seq<string>, b: seq<string>)
    ensures CanonicalNames(a + b) == CanonicalNames(a) + CanonicalNames(b)
  {
    if a != [] {
      assert (a + b)[0] == a[0] && (a + b)[1..] == a[1..] + b;
      CanonicalAppend(a[1..], b);
    } else {
      assert a + b == b;
    }
  }

  /**
   * One task gives the upper-cased name of a mapping, `""` when the mapping
   * has no `name`, and nothing for any other entry; with `TaskNamesAppend`
   * this fixes the names of every task list.
   */
  lemma TaskNamesSingleton(t: Task)
    ensures TaskNames([t]) == (if t.TaskMapping? then [Upper(t.name.GetOr(""))] else [])
  {
    assert [t][0] == t && [t][1..] == [];
    assert TaskNames([t]) == NameOf(t) + TaskNames([]);
  }

  /** A task named in lower case, such as `gather facts`, is upper-cased and so becomes canonical. */
  lemma LowerCaseNameCanonical()
    ensures TaskNames([TaskMapping(Some("gather facts"))]) == ["GATHER FACTS"]
    ensures IsCanonical("GATHER FACTS")
  {
    TaskNamesSingleton(TaskMapping(Some("gather facts")));
    assert Upper("gather facts") == "GATHER FACTS";
    var name := "GATHER FACTS";
    assert name[0..6] == RequiredTasks[0];
    ContainsAt(name, RequiredTasks[0], 0);
  }

  /** A task that is not a mapping, or whose name has no keyword, contributes no canonical name. */
  predicate NonCanonicalTask(t: Task) {
    t.NotAMapping? || !IsCanonical(Upper(t.name.GetOr("")))
  }

  /** Inserting a non-canonical task anywhere in a play never changes its verdict. */
  lemma NonCanonicalTaskIrrelevant(before: seq<Task>, t: Task, after: seq<Task>)
    requires NonCanonicalTask(t)
    ensures PlayPasses(Play(Some(before + [t] + after))) == PlayPasses(Play(Some(before + after)))
  {
    NonCanonicalTaskFound(before, t, after);
  }

  lemma NonCanonicalTaskFound(before: seq<Task>, t: Task, after: seq<Task>)
    requires NonCanonicalTask(t)
    ensures FoundCanonical(Play(Some(before + [t] + after))) == FoundCanonical(Play(Some(before + after)))
  {
    NoCanonicalName(t);
    FoundAppend(before + [t], after);
    FoundAppend(before, [t]);
    FoundAppend(before, after);
  }

  /** The canonical names of concatenated task lists are concatenated. */
  lemma FoundAppend(a: seq<Task>, b: seq<Task>)
    ensures CanonicalNames(TaskNames(a + b)) == CanonicalNames(TaskNames(a)) + CanonicalNames(TaskNames(b))
  {
    TaskNamesAppend(a, b);
    CanonicalAppend(TaskNames(a), TaskNames(b));
  }

  lemma NoCanonicalName(t: Task)
    requires NonCanonicalTask(t)
    ensures CanonicalNames(TaskNames([t])) == []
  {
    TaskNamesSingleton(t);
    if t.TaskMapping? {
      var n := NameOf(t);
      assert n[1..] == [];
    }
  }

  /** Once the first seven canonical tasks are in place, further tasks never matter. */
  lemma TasksAfterSeventhIrrelevant(before: seq<Task>, after: seq<Task>)
    requires |CanonicalNames(TaskNames(before))| >= |RequiredTasks|
    ensures PlayPasses(Play(Some(before + after))) == PlayPasses(Play(Some(before)))
  {
    TaskNamesAppend(before, after);
    CanonicalAppend(TaskNames(before), TaskNames(after));
    var fb := CanonicalNames(TaskNames(before));
    var f := FoundCanonical(Play(Some(before + after)));
    assert forall i :: 0 <= i < |fb| ==> f[i] == fb[i];
  }

  /** A play with fewer than seven canonical tasks always fails. */
  lemma FewerThanSevenFails(p: Play)
    requires |FoundCanonical(p)| < |RequiredTasks|
    ensures !PlayPasses(p)
  {
  }

  /** A play without `tasks` fails, and a playbook with no plays passes. */
  lemma EdgeCases()
    ensures !PlayPasses(Play(None))
    ensures PlaybookPasses(Plays([]))
    ensures !PlaybookPasses(ParseError) && !PlaybookPasses(NotAList)
  {
  }

  /** The file verdict is the conjunction of the play verdicts: one failing play fails the file. */
  lemma FailingPlayFailsFile(plays: seq<Play>, i: int)
    requires 0 <= i < |plays| && !PlayPasses(plays[i])
    ensures !PlaybookPasses(Plays(plays))
  {
  }

  /** One mapping task per name, in order. */
  function NamedTasks(names: seq<string>): seq<Task> {
    if names == [] then [] else [TaskMapping(Some(names[0]))] + NamedTasks(names[1..])
  }

  lemma {:induction false} NamedTaskNames(names: seq<string>)
    requires forall k :: 0 <= k < |names| ==> NoLower(names[k])
    ensures TaskNames(NamedTasks(names)) == names
  {
    if names != [] {
      var tasks := NamedTasks(names);
      assert tasks[0] == TaskMapping(Some(names[0])) && tasks[1..] == NamedTasks(names[1..]);
      NamedTaskNames(names[1..]);
    }
  }

  lemma {:induction false} CanonicalKept(names: seq<string>)
    requires forall k :: 0 <= k < |names| ==> IsCanonical(names[k])
    ensures CanonicalNames(names) == names
  {
    if names != [] {
      CanonicalKept(names[1..]);
    }
  }

  /** Every keyword contains itself, so it is a canonical name. */
  lemma KeywordsCanonical()
    ensures forall r :: 0 <= r < |RequiredTasks| ==> NoLower(RequiredTasks[r]) && Contains(RequiredTasks[r], RequiredTasks[r])
    ensures forall r :: 0 <= r < |RequiredTasks| ==> IsCanonical(RequiredTasks[r])
  {
    forall r | 0 <= r < |RequiredTasks|
      ensures NoLower(RequiredTasks[r]) && Contains(RequiredTasks[r], RequiredTasks[r])
    {
      var k := RequiredTasks[r];
      assert k[..|k|] == k;
    }
  }

  /** A play whose tasks carry the seven keywords in order passes. */
  lemma KeywordPlayPasses()
    ensures PlayPasses(Play(Some(NamedTasks(RequiredTasks))))
  {
    KeywordsCanonical();
    NamedTaskNames(RequiredTasks);
    CanonicalKept(RequiredTasks);
  }

  lemma ProcessLacksGather()
    ensures !Contains("PROCESS", "GATHER")
  {
    var p := "PROCESS";
    assert p[..6][0] == 'P';
    assert p[1..][..6][0] == 'R';
    assert !Contains(p[1..][1..], "GATHER");
  }

  /** The keyword list with its first two entries swapped. */
  const Swapped: seq<string> := ["PROCESS", "GATHER", "APPLY", "VERIFY", "AUDIT", "REPORT", "FINALIZE"]

  lemma SwappedCanonical()
    ensures forall k :: 0 <= k < |Swapped| ==> NoLower(Swapped[k]) && IsCanonical(Swapped[k])
  {
    KeywordsCanonical();
    forall k | 0 <= k < |Swapped|
      ensures NoLower(Swapped[k]) && IsCanonical(Swapped[k])
    {
      var j := if k == 0 then 1 else if k == 1 then 0 else k;
      assert Swapped[k] == RequiredTasks[j];
    }
  }

  lemma SwappedNamesFound()
    ensures FoundCanonical(Play(Some(NamedTasks(Swapped)))) == Swapped
  {
    SwappedCanonical();
    NamedTaskNames(Swapped);
    CanonicalKept(Swapped);
  }

  /** Swapping GATHER and PROCESS misorders the play, so it fails. */
  lemma SwappedPlayFails()
    ensures !PlayPasses(Play(Some(NamedTasks(Swapped))))
  {
    SwappedNamesFound();
    ProcessLacksGather();
    assert Swapped[0] == "PROCESS" && RequiredTasks[0] == "GATHER";
  }
}
