/** The task queue of the thread pool: a list ordered by priority and, within one, by arrival. */
module TaskQueue {
  import opened Wrappers

  type int32 = x: int | -0x8000_0000 <= x < 0x8000_0000

  /** `arrival` numbers the tasks in the order of their pushes. */
  datatype Task = Task(id: nat, priority: int32, arrival: nat)

  /** Where a task goes: at the end, or before the first task of lower priority. */
  function Position(tasks: seq<Task>, priority: int32): (i: nat)
    ensures i <= |tasks|
  {
    if tasks == [] || (priority != 0 && tasks[0].priority < priority) then 0
    else 1 + Position(tasks[1..], priority)
  }

  lemma {:induction false} PositionIs(tasks: seq<Task>, priority: int32, i: nat)
    requires i <= |tasks|
    requires priority == 0 ==> i == |tasks|
    requires i < |tasks| ==> tasks[i].priority < priority
    requires priority != 0 ==> forall k | 0 <= k < i :: tasks[k].priority >= priority
    ensures Position(tasks, priority) == i
  {
    if i > 0 {
      PositionIs(tasks[1..], priority, i - 1);
    }
  }

  /** The whole list is inserted where its first task belongs. */
  function Push(tasks: seq<Task>, jobs: seq<Task>): seq<Task>
    requires jobs != []
  {
    var i := Position(tasks, jobs[0].priority);
    tasks[..i] + jobs + tasks[i..]
  }

  class Queue {
    var tasks: seq<Task>

    constructor ()
      ensures tasks == []
    {
      tasks := [];
    }

    method PushTasks(jobs: seq<Task>)
      requires jobs != []
      modifies this
      ensures tasks == Push(old(tasks), jobs)
    {
      var priority := jobs[0].priority;
      var i := |tasks|;
      if priority != 0 {
        i := 0;
        while i < |tasks| && !(tasks[i].priority < priority)
          invariant i <= |tasks|
          invariant forall k | 0 <= k < i :: tasks[k].priority >= priority
        {
          i := i + 1;
        }
      }
      PositionIs(tasks, priority, i);
      tasks := tasks[..i] + jobs + tasks[i..];
    }

    method Pop() returns (result: Option<Task>)
      modifies this
      ensures old(tasks) == [] ==> result == None && tasks == []
      ensures old(tasks) != [] ==> result == Some(old(tasks)[0]) && tasks == old(tasks)[1..]
    {
      if tasks == [] {
        return None;
      }
      result := Some(tasks[0]);
      tasks := tasks[1..];
    }
  }

  // ----- order ---------------------------------------------------------------------------------------------

  predicate Before(a: Task, b: Task) {
    a.priority > b.priority || (a.priority == b.priority && a.arrival < b.arrival)
  }

  ghost predicate Ordered(tasks: seq<Task>) {
    forall i, j | 0 <= i < j < |tasks| :: Before(tasks[i], tasks[j])
  }

  ghost predicate Newer(task: Task, tasks: seq<Task>) {
    forall i | 0 <= i < |tasks| :: tasks[i].arrival < task.arrival
  }

  lemma {:induction false} PositionSplits(tasks: seq<Task>, priority: int32)
    requires Ordered(tasks)
    ensures var i := Position(tasks, priority);
            && (priority == 0 ==> i == |tasks|)
            && (priority != 0 ==> forall k | 0 <= k < i :: tasks[k].priority >= priority)
            && forall k | i <= k < |tasks| :: tasks[k].priority < priority
  {
    if tasks == [] {
    } else if priority != 0 && tasks[0].priority < priority {
      forall k | 0 <= k < |tasks| ensures tasks[k].priority < priority {
        assert k == 0 || Before(tasks[0], tasks[k]);
      }
    } else {
      PositionSplits(tasks[1..], priority);
    }
  }

  /** A push keeps the order unless a task of priority 0 is put behind one of negative priority. */
  lemma PushKeepsOrderIff(tasks: seq<Task>, task: Task)
    requires Ordered(tasks) && Newer(task, tasks)
    ensures Ordered(Push(tasks, [task]))
            <==> !(task.priority == 0 && tasks != [] && tasks[|tasks| - 1].priority < 0)
  {
    var i, pushed := Position(tasks, task.priority), Push(tasks, [task]);
    PositionSplits(tasks, task.priority);
    assert forall k | 0 <= k < i :: pushed[k] == tasks[k];
    assert pushed[i] == task;
    assert forall k | i < k < |pushed| :: pushed[k] == tasks[k - 1];
    if task.priority == 0 && tasks != [] {
      if tasks[|tasks| - 1].priority < 0 {
        assert !Before(pushed[i - 1], pushed[i]);
      } else {
        forall k | 0 <= k < i ensures tasks[k].priority >= 0 {
          assert k == |tasks| - 1 || Before(tasks[k], tasks[|tasks| - 1]);
        }
      }
    }
  }

  // ----- runs ------------------------------------------------------------------------------------------------

  datatype Event = Pushes(id: nat, priority: int32) | Pops

  /** The queue, the number of tasks pushed so far, and which tasks have been popped and pushed. */
  datatype State = State(tasks: seq<Task>, next: nat, popped: seq<Task>, pushed: multiset<Task>)

  function Step(s: State, e: Event): State {
    match e
    case Pushes(id, priority) =>
      var task := Task(id, priority, s.next);
      s.(tasks := Push(s.tasks, [task]), next := s.next + 1, pushed := s.pushed + multiset{task})
    case Pops =>
      if s.tasks == [] then s else s.(tasks := s.tasks[1..], popped := s.popped + [s.tasks[0]])
  }

  function Run(s: State, run: seq<Event>): State
    decreases |run|
  {
    if run == [] then s else Run(Step(s, run[0]), run[1..])
  }

  const EMPTY := State([], 0, [], multiset{})

  /** The reference: a bag of waiting tasks from which the one before all others is taken. */
  datatype Bag = Bag(waiting: set<Task>, next: nat, popped: seq<Task>)

  ghost predicate IsFirst(waiting: set<Task>, task: Task) {
    task in waiting && forall other | other in waiting && other != task :: Before(task, other)
  }

  ghost predicate BagStep(b: Bag, e: Event, b': Bag) {
    match e
    case Pushes(id, priority) =>
      b' == Bag(b.waiting + {Task(id, priority, b.next)}, b.next + 1, b.popped)
    case Pops =>
      if b.waiting == {} then b' == b
      else exists task | IsFirst(b.waiting, task) :: b' == Bag(b.waiting - {task}, b.next, b.popped + [task])
  }

  /** The reference leaves no choice: at most one task comes before all others. */
  lemma BagStepIsUnique(b: Bag, e: Event, x: Bag, y: Bag)
    requires BagStep(b, e, x) && BagStep(b, e, y)
    ensures x == y
  {
    if e.Pops? && b.waiting != {} {
      var t :| IsFirst(b.waiting, t) && x == Bag(b.waiting - {t}, b.next, b.popped + [t]);
      var u :| IsFirst(b.waiting, u) && y == Bag(b.waiting - {u}, b.next, b.popped + [u]);
      assert t == u || (Before(t, u) && Before(u, t));
    }
  }

  function Elements(tasks: seq<Task>): set<Task> {
    set i | 0 <= i < |tasks| :: tasks[i]
  }

  function BagOf(s: State): Bag {
    Bag(Elements(s.tasks), s.next, s.popped)
  }

  ghost predicate Inv(s: State) {
    Ordered(s.tasks) && (forall i | 0 <= i < |s.tasks| :: s.tasks[i].arrival < s.next && s.tasks[i].priority >= 0)
  }

  predicate NonNegative(e: Event) {
    e.Pushes? ==> e.priority >= 0
  }

  lemma PushElements(tasks: seq<Task>, task: Task)
    ensures Elements(Push(tasks, [task])) == Elements(tasks) + {task}
  {
    var i, pushed := Position(tasks, task.priority), Push(tasks, [task]);
    assert pushed[i] == task;
    forall k | 0 <= k < |tasks| ensures tasks[k] in Elements(pushed) {
      assert tasks[k] == pushed[if k < i then k else k + 1];
    }
  }

  lemma PopElements(tasks: seq<Task>)
    requires Ordered(tasks) && tasks != []
    ensures IsFirst(Elements(tasks), tasks[0]) && Elements(tasks[1..]) == Elements(tasks) - {tasks[0]}
  {
    forall t | t in Elements(tasks) && t != tasks[0] ensures Before(tasks[0], t) && t in Elements(tasks[1..]) {
      var i :| 0 <= i < |tasks| && tasks[i] == t;
      assert tasks[1..][i - 1] == t;
    }
    forall i | 0 <= i < |tasks[1..]| ensures tasks[1..][i] in Elements(tasks) && tasks[1..][i] != tasks[0] {
      assert tasks[1..][i] == tasks[i + 1];
      assert Before(tasks[0], tasks[i + 1]);
    }
  }

  lemma StepRefines(s: State, e: Event)
    requires Inv(s) && NonNegative(e)
    ensures Inv(Step(s, e)) && BagStep(BagOf(s), e, BagOf(Step(s, e)))
  {
    match e
    case Pushes(id, priority) =>
      var task := Task(id, priority, s.next);
      PushKeepsOrderIff(s.tasks, task);
      PushElements(s.tasks, task);
    case Pops =>
      if s.tasks != [] {
        PopElements(s.tasks);
        assert s.tasks[0] in Elements(s.tasks);
      }
  }

  ghost predicate BagRun(b: Bag, run: seq<Event>, b': Bag)
    decreases |run|
  {
    if run == [] then b' == b
    else exists middle :: BagStep(b, run[0], middle) && BagRun(middle, run[1..], b')
  }

  /** Over every run the list behaves like the bag: it pops the earliest task of highest priority. */
  lemma {:induction false} RunRefines(s: State, run: seq<Event>)
    requires Inv(s) && forall i | 0 <= i < |run| :: NonNegative(run[i])
    ensures Inv(Run(s, run)) && BagRun(BagOf(s), run, BagOf(Run(s, run)))
    decreases |run|
  {
    if run != [] {
      var next := Step(s, run[0]);
      StepRefines(s, run[0]);
      RunRefines(next, run[1..]);
      assert BagStep(BagOf(s), run[0], BagOf(next));
      assert BagRun(BagOf(next), run[1..], BagOf(Run(s, run)));
    }
  }

  /** With a negative priority in the queue the list is no priority queue any more. */
  lemma NegativeIsOvertaken(a: nat, b: nat)
    ensures var s := Run(EMPTY, [Pushes(a, -1), Pushes(b, 0), Pops]);
            s.popped == [Task(a, -1, 0)] && s.tasks == [Task(b, 0, 1)]
  {
    var first, second := Task(a, -1, 0), Task(b, 0, 1);
    var s := Step(EMPTY, Pushes(a, -1));
    assert s.tasks == [first];
    var t := Step(s, Pushes(b, 0));
    assert Position([first], 0) == 1;
    assert t.tasks == [first, second];
    assert Step(t, Pops) == t.(tasks := [second], popped := [first]);
    var run := [Pushes(a, -1), Pushes(b, 0), Pops];
    assert run[1..] == [Pushes(b, 0), Pops] && run[1..][1..] == [Pops] && run[1..][1..][1..] == [];
    assert Run(t, [Pops]) == Run(Step(t, Pops), []);
  }

  lemma PushConserves(tasks: seq<Task>, jobs: seq<Task>)
    requires jobs != []
    ensures multiset(Push(tasks, jobs)) == multiset(tasks) + multiset(jobs)
  {
    var i := Position(tasks, jobs[0].priority);
    assert tasks == tasks[..i] + tasks[i..];
  }

  /** Every task that was pushed is either waiting or has been popped, and as often. */
  ghost predicate Conserved(s: State) {
    multiset(s.tasks) + multiset(s.popped) == s.pushed
  }

  lemma StepConserves(s: State, e: Event)
    requires Conserved(s)
    ensures Conserved(Step(s, e))
  {
    if e.Pushes? {
      PushConserves(s.tasks, [Task(e.id, e.priority, s.next)]);
    } else if s.tasks != [] {
      assert s.tasks == [s.tasks[0]] + s.tasks[1..];
    }
  }

  /** Whatever the priorities, no task is lost and none is run twice. */
  lemma {:induction false} RunConserves(s: State, run: seq<Event>)
    requires Conserved(s)
    ensures Conserved(Run(s, run))
    decreases |run|
  {
    if run != [] {
      StepConserves(s, run[0]);
      RunConserves(Step(s, run[0]), run[1..]);
    }
  }
}
