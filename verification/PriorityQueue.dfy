/** The proxy's job queue (CS_537_P6/starter-code/safequeue.c): a linked list kept in order of priority. */
module PriorityQueue {
  import opened Keys

  // ---------- where an item goes ----------

  /** The first position whose priority is lower than p. */
  function Place(ps: seq<int>, p: int): (k: nat)
    ensures Fits(ps, k, p)
  {
    if ps == [] || ps[0] < p then 0 else 1 + Place(ps[1..], p)
  }

  predicate Descending(ps: seq<int>) {
    forall i, j :: 0 <= i < j < |ps| ==> ps[i] >= ps[j]
  }

  /** k is the place for priority p. */
  predicate Fits(ps: seq<int>, k: nat, p: int) {
    k <= |ps| && (forall i :: 0 <= i < k ==> ps[i] >= p) && (k < |ps| ==> ps[k] < p)
  }

  function Put<T>(q: seq<T>, k: nat, x: T): (r: seq<T>)
    requires k <= |q|
    ensures |r| == |q| + 1 && r[k] == x
    ensures forall i :: 0 <= i < |r| && i != k ==> r[i] == if i < k then q[i] else q[i - 1]
  {
    q[..k] + [x] + q[k..]
  }

  // ---------- the linked list ----------

  class Item {
    const priority: int
    var next: Item?

    constructor (priority: int)
      ensures this.priority == priority && next == null
    {
      this.priority, next := priority, null;
    }
  }

  function Priorities(items: seq<Item>): (ps: seq<int>)
    ensures |ps| == |items| && forall i :: 0 <= i < |items| ==> ps[i] == items[i].priority
  {
    seq(|items|, i requires 0 <= i < |items| => items[i].priority)
  }

  predicate Distinct(items: seq<Item>) {
    forall i, j :: 0 <= i < j < |items| ==> items[i] != items[j]
  }

  lemma PutDistinct(items: seq<Item>, k: nat, item: Item)
    requires k <= |items| && Distinct(items) && item !in items
    ensures Distinct(Put(items, k, item))
  {
    var r := Put(items, k, item);
    forall i, j | 0 <= i < j < |r|
      ensures r[i] != r[j]
    {
      if i == k {
        assert r[j] == items[j - 1] && items[j - 1] in items;
      } else if j == k {
        assert r[i] == items[i] && items[i] in items;
      }
    }
  }

  lemma PutDescending(items: seq<Item>, k: nat, item: Item)
    requires Descending(Priorities(items)) && Fits(Priorities(items), k, item.priority)
    ensures Descending(Priorities(Put(items, k, item)))
  {
    var ps := Priorities(items);
    var r := Put(items, k, item);
    var rs := Priorities(r);
    forall i, j | 0 <= i < j < |rs|
      ensures rs[i] >= rs[j]
    {
      assert rs[i] == if i < k then ps[i] else if i == k then item.priority else ps[i - 1];
      assert rs[j] == if j < k then ps[j] else if j == k then item.priority else ps[j - 1];
      if i == k {
        assert ps[j - 1] <= ps[k];
      }
    }
  }

  /** In order of priority, each item once. */
  ghost predicate Arranged(items: seq<Item>) {
    forall k {:trigger See(k)} :: k == INSIDE ==> Descending(Priorities(items)) && Distinct(items)
  }

  lemma OnlyThere(items: seq<Item>, k: nat)
    requires Arranged(items) && k < |items|
    ensures forall i :: 0 <= i < |items| && items[i] == items[k] ==> i == k
  {
    assert See(INSIDE);
  }

  lemma TailArranged(items: seq<Item>)
    requires Arranged(items) && items != []
    ensures Arranged(items[1..])
  {
    assert See(INSIDE);
    var rs := Priorities(items[1..]);
    assert forall i :: 0 <= i < |rs| ==> rs[i] == Priorities(items)[i + 1];
  }

  lemma PutOk(items: seq<Item>, item: Item)
    requires Arranged(items) && item !in items
    ensures Arranged(Put(items, Place(Priorities(items), item.priority), item))
  {
    assert See(INSIDE);
    var k := Place(Priorities(items), item.priority);
    PutDescending(items, k, item);
    PutDistinct(items, k, item);
  }

  lemma PutPriorities(items: seq<Item>, jobs: seq<Job>, k: nat, item: Item, job: Job)
    requires k <= |items| && Priorities(items) == JobPriorities(jobs) && item.priority == job.priority
    ensures |jobs| == |items| && Priorities(Put(items, k, item)) == JobPriorities(Put(jobs, k, job))
  {
    forall i | 0 <= i < |items|
      ensures items[i].priority == jobs[i].priority
    {
      assert Priorities(items)[i] == JobPriorities(jobs)[i];
    }
  }

  /** The history is sound, and its queue is the list. */
  ghost predicate Agrees(capacity: int, items: seq<Item>, run: Run) {
    |items| == |run.queued| && forall k {:trigger See(k)} :: k == INSIDE ==> AgreesNow(capacity, items, run)
  }

  ghost predicate AgreesNow(capacity: int, items: seq<Item>, run: Run) {
    Priorities(items) == JobPriorities(run.queued) && Sound(capacity, run)
  }

  lemma OfferAgrees(capacity: int, items: seq<Item>, run: Run, item: Item)
    requires Agrees(capacity, items, run)
    ensures Agrees(capacity,
                   if |items| >= capacity then items else Put(items, Place(Priorities(items), item.priority), item),
                   Step(capacity, run, Offer(item.priority)))
  {
    assert See(INSIDE);
    OfferSound(capacity, run, item.priority);
    if |items| < capacity {
      var k := Place(Priorities(items), item.priority);
      PutPriorities(items, run.queued, k, item, Job(item.priority, |run.accepted|));
      assert AgreesNow(capacity, Put(items, k, item), Step(capacity, run, Offer(item.priority)));
    }
  }

  lemma TakeAgrees(capacity: int, items: seq<Item>, run: Run)
    requires Agrees(capacity, items, run) && items != []
    ensures run.queued != [] && items[0].priority == run.queued[0].priority
    ensures Agrees(capacity, items[1..], Step(capacity, run, Take))
  {
    assert See(INSIDE);
    TakeSound(capacity, run);
    var ps := Priorities(items);
    assert ps[0] == items[0].priority && JobPriorities(run.queued)[0] == run.queued[0].priority;
    assert Priorities(items[1..]) == ps[1..] && JobPriorities(run.queued[1..]) == ps[1..];
    assert AgreesNow(capacity, items[1..], Step(capacity, run, Take));
  }

  class Queue {
    var head: Item?
    var size: int
    const capacity: int
    ghost var items: seq<Item>
    ghost var run: Run // what has happened to the queue: run.queued[i] is the job of items[i]

    ghost predicate Linked(i: nat)
      requires i < |items|
      reads this`items, items
    {
      items[i].next == if i + 1 < |items| then items[i + 1] else null
    }

    /** The nodes reachable from head are items, in order of priority. */
    ghost predicate Listed()
      reads this`head, this`size, this`items, items
    {
      && size == |items| && (size > 0 ==> size <= capacity) && head == (if items == [] then null else items[0])
      && (forall i :: 0 <= i < |items| ==> Linked(i)) && Arranged(items)
    }

    /** The list, and its history in agreement with it. */
    ghost predicate Valid()
      reads this, items
    {
      Listed() && Agrees(capacity, items, run)
    }

    constructor (capacity: int)
      ensures Valid() && items == [] && this.capacity == capacity && run == Run([], [], [])
    {
      head, size, items, run := null, 0, [], Run([], [], []);
      assert AgreesNow(capacity, [], Run([], [], []));
      this.capacity := capacity;
      new;
      assert Descending(Priorities(items)) && Distinct(items);
    }

    /** insertItem's walk: the last node before the item's place. */
    method Walk(p: int) returns (current: Item, ghost k: nat)
      requires Listed() && items != [] && items[0].priority >= p
      ensures 0 < k <= |items| && k == Place(Priorities(items), p) && current == items[k - 1]
    {
      current, k := head, 1;
      while current.next != null && (current.next as Item).priority >= p
        invariant 0 < k <= |items| && current == items[k - 1] && forall i :: 0 <= i < k ==> items[i].priority >= p
        decreases |items| - k
      {
        assert Linked(k - 1);
        current, k := current.next, k + 1;
      }
      assert Linked(k - 1);
    }

    /** Links the item after position k - 1. */
    method InsertAfter(item: Item, current: Item, ghost k: nat)
      requires Listed() && item !in items && size < capacity
      requires 0 < k <= |items| && k == Place(Priorities(items), item.priority) && current == items[k - 1]
      modifies this`size, this`items, items, item
      ensures Listed() && items == Put(old(items), k, item)
    {
      assert Linked(k - 1);
      PutOk(items, item);
      OnlyThere(items, k - 1);
      item.next := current.next;
      current.next := item;
      items := Put(items, k, item);
      size := size + 1;
      forall i | 0 <= i < |items|
        ensures Linked(i)
      {
        if i < k - 1 {
          assert old(Linked(i));
        } else if i > k {
          assert old(Linked(i - 1));
        }
      }
    }

    method InsertFront(item: Item)
      requires Listed() && item !in items && size < capacity && 0 == Place(Priorities(items), item.priority)
      modifies this`head, this`size, this`items, item
      ensures Listed() && items == Put(old(items), 0, item)
    {
      PutOk(items, item);
      item.next := head;
      head := item;
      items := Put(items, 0, item);
      size := size + 1;
      forall i | 0 <= i < |items|
        ensures Linked(i)
      {
        if i > 0 {
          assert old(Linked(i - 1));
        }
      }
    }

    /** insertItem: refused exactly when full, else linked in at its place. */
    method Insert(item: Item) returns (ok: bool)
      requires Valid() && item !in items
      modifies this, items, item
      ensures Valid() && (ok <==> old(size) < capacity) && run == Step(capacity, old(run), Offer(item.priority))
      ensures ok ==> items == Put(old(items), Place(Priorities(old(items)), item.priority), item)
      ensures !ok ==> items == old(items)
    {
      OfferAgrees(capacity, items, run, item);
      run := Step(capacity, run, Offer(item.priority));
      ok := size < capacity;
      if ok {
        InsertNode(item);
      }
    }

    method InsertNode(item: Item)
      requires Listed() && item !in items && size < capacity
      modifies this`head, this`size, this`items, items, item
      ensures Listed() && items == Put(old(items), Place(Priorities(old(items)), item.priority), item)
    {
      if head == null || (head as Item).priority < item.priority {
        InsertFront(item);
      } else {
        var current, k := Walk(item.priority);
        InsertAfter(item, current, k);
      }
    }

    /** removeItem once an item is there: the job it stands for is the next in the history. */
    method Remove() returns (item: Item)
      requires Valid() && size > 0
      modifies this
      ensures Valid() && old(items) == [item] + items && run == Step(capacity, old(run), Take)
      ensures old(run.queued) != [] && item.priority == old(run.queued)[0].priority
    {
      TakeAgrees(capacity, items, run);
      item := Unlink();
      assert items == old(items)[1..];
      run := Step(capacity, run, Take);
    }

    method Unlink() returns (item: Item)
      requires Listed() && size > 0
      modifies this`head, this`size, this`items
      ensures Listed() && old(items) == [item] + items
    {
      item := head;
      TailArranged(items);
      assert Linked(0);
      head := item.next;
      size := size - 1;
      items := items[1..];
      forall i | 0 <= i < |items|
        ensures Linked(i)
      {
        assert old(Linked(i + 1));
      }
    }
  }

  // ---------- whole runs ----------

  /** A job and when it was accepted. */
  datatype Job = Job(priority: int, arrival: nat)

  /** accepted and removed are histories. */
  datatype Run = Run(queued: seq<Job>, accepted: seq<Job>, removed: seq<Job>)

  datatype Op = Offer(priority: int) | Take

  function JobPriorities(q: seq<Job>): (ps: seq<int>)
    ensures |ps| == |q| && forall i :: 0 <= i < |q| ==> ps[i] == q[i].priority
  {
    seq(|q|, i requires 0 <= i < |q| => q[i].priority)
  }

  /** Offer on a full queue changes nothing; Take waits while the queue is empty, so then it does not happen. */
  function Step(capacity: int, r: Run, op: Op): Run {
    match op
    case Offer(p) =>
      if |r.queued| >= capacity then r
      else
        var job := Job(p, |r.accepted|);
        r.(queued := Put(r.queued, Place(JobPriorities(r.queued), p), job), accepted := r.accepted + [job])
    case Take => if r.queued == [] then r else r.(queued := r.queued[1..], removed := r.removed + [r.queued[0]])
  }

  function After(capacity: int, ops: seq<Op>): Run {
    if ops == [] then Run([], [], []) else Step(capacity, After(capacity, ops[..|ops| - 1]), ops[|ops| - 1])
  }

  /** Higher priority first, and among equals the one accepted first. */
  predicate Ahead(a: Job, b: Job) {
    a.priority > b.priority || (a.priority == b.priority && a.arrival < b.arrival)
  }

  predicate Ordered(r: Run) {
    && (forall i, j :: 0 <= i < j < |r.queued| ==> Ahead(r.queued[i], r.queued[j]))
    && forall i :: 0 <= i < |r.queued| ==> r.queued[i].arrival < |r.accepted|
  }

  predicate Sound(capacity: int, r: Run) {
    && Ordered(r) && (r.queued != [] ==> |r.queued| <= capacity)
    && multiset(r.accepted) == multiset(r.removed) + multiset(r.queued)
    && forall i :: 0 <= i < |r.accepted| ==> r.accepted[i].arrival == i
  }

  lemma PutOrdered(r: Run, k: nat, p: int)
    requires Ordered(r) && Fits(JobPriorities(r.queued), k, p)
    ensures Ordered(Run(Put(r.queued, k, Job(p, |r.accepted|)), r.accepted + [Job(p, |r.accepted|)], r.removed))
  {
    var ps := JobPriorities(r.queued);
    forall i | k <= i < |ps|
      ensures ps[i] < p
    {
      if i > k {
        assert Ahead(r.queued[k], r.queued[i]);
      }
    }
  }

  lemma PutMultiset(q: seq<Job>, k: nat, x: Job)
    requires k <= |q|
    ensures multiset(Put(q, k, x)) == multiset(q) + multiset{x}
  {
    assert q == q[..k] + q[k..];
  }

  lemma OfferSound(capacity: int, r: Run, p: int)
    requires Sound(capacity, r)
    ensures Sound(capacity, Step(capacity, r, Offer(p)))
  {
    var k := Place(JobPriorities(r.queued), p);
    PutMultiset(r.queued, k, Job(p, |r.accepted|));
    PutOrdered(r, k, p);
  }

  lemma TailOrdered(r: Run)
    requires Ordered(r) && r.queued != []
    ensures Ordered(r.(queued := r.queued[1..], removed := r.removed + [r.queued[0]]))
  {
    var q := r.queued[1..];
    forall i, j | 0 <= i < j < |q|
      ensures Ahead(q[i], q[j])
    {
      assert Ahead(r.queued[i + 1], r.queued[j + 1]);
    }
  }

  lemma TailMultiset(q: seq<Job>, removed: seq<Job>)
    requires q != []
    ensures multiset(removed + [q[0]]) + multiset(q[1..]) == multiset(removed) + multiset(q)
  {
    assert q == [q[0]] + q[1..];
  }

  lemma TakeSound(capacity: int, r: Run)
    requires Sound(capacity, r)
    ensures Sound(capacity, Step(capacity, r, Take))
  {
    if r.queued != [] {
      TailOrdered(r);
      TailMultiset(r.queued, r.removed);
    }
  }

  lemma StepSound(capacity: int, r: Run, op: Op)
    requires Sound(capacity, r)
    ensures Sound(capacity, Step(capacity, r, op))
  {
    match op
    case Offer(p) => OfferSound(capacity, r, p);
    case Take => TakeSound(capacity, r);
  }

  /** In every run the queue is in order and within capacity, and every job accepted is queued or was removed, once. */
  lemma {:induction false} QueueRuns(capacity: int, ops: seq<Op>)
    ensures Sound(capacity, After(capacity, ops))
  {
    if ops != [] {
      QueueRuns(capacity, ops[..|ops| - 1]);
      StepSound(capacity, After(capacity, ops[..|ops| - 1]), ops[|ops| - 1]);
    }
  }

  /** Each job taken is ahead of every job left behind. */
  lemma TakesTheBest(capacity: int, ops: seq<Op>, i: nat)
    requires After(capacity, ops).queued != []
    ensures var (r, s) := (After(capacity, ops), After(capacity, ops + [Take]));
            && s.removed == r.removed + [r.queued[0]]
            && (i < |s.queued| ==> Ahead(r.queued[0], s.queued[i]))
  {
    QueueRuns(capacity, ops);
    assert (ops + [Take])[..|ops|] == ops;
  }

  /** Any sequence of calls on the linked list: what comes out is what the history says. */
  method Play(capacity: int, ops: seq<Op>) returns (taken: seq<int>)
    ensures taken == JobPriorities(After(capacity, ops).removed)
  {
    var q := new Queue(capacity);
    taken := [];
    assert ops[..0] == [];
    for n := 0 to |ops|
      invariant fresh(q) && q.Valid() && q.capacity == capacity && fresh(set i | i in q.items)
      invariant q.run == After(capacity, ops[..n]) && taken == JobPriorities(q.run.removed)
    {
      assert ops[..n + 1][..n] == ops[..n];
      match ops[n]
      case Offer(p) =>
        var item := new Item(p);
        var ok := q.Insert(item);
      case Take =>
        if q.size > 0 {
          var item := q.Remove();
          taken := taken + [item.priority];
        }
    }
    assert ops[..|ops|] == ops;
  }
}
