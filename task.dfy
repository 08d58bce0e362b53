/** Task identity in `task/mod.rs`: `TaskId::new` hands out the value of a global
    `AtomicU64` counter and advances it with `fetch_add(1)`, and `Task::new` tags
    each new task with such an id. */
module Task {

  const U64Modulus: nat := 0x1_0000_0000_0000_0000

  type u64 = n: nat | n < U64Modulus

  /** `TaskId(u64)`; its derived order is the order of the number. */
  datatype TaskId = TaskId(value: u64)

  predicate Less(a: TaskId, b: TaskId) {
    a.value < b.value
  }

  /** Identifies the future a task runs; futures themselves are not modelled. */
  type FutureId = nat

  datatype Task = Task(id: TaskId, future: FutureId)

  /** The `NEXT_ID` counter. */
  class IdCounter {
    var next: u64
    /** Every id handed out so far, in order. */
    ghost var issued: seq<TaskId>

    /** The k-th id handed out is k, modulo 2^64, and the counter holds the
        number of ids handed out, modulo 2^64. */
    ghost predicate Valid()
      reads this
    {
      && next == |issued| % U64Modulus
      && forall k :: 0 <= k < |issued| ==> issued[k].value == k % U64Modulus
    }

    constructor()
      ensures Valid() && next == 0 && issued == []
    {
      next := 0;
      issued := [];
    }

    /** `TaskId::new`: the previous counter value; the counter advances by one,
        wrapping at 2^64 as `fetch_add` does. */
    method NewId() returns (id: TaskId)
      requires Valid()
      modifies this
      ensures Valid()
      ensures id == TaskId(old(next))
      ensures next == (old(next) + 1) % U64Modulus
      ensures issued == old(issued) + [id]
    {
      id := TaskId(next);
      issued := issued + [id];
      next := (next + 1) % U64Modulus;
    }
  }

  /** `Task::new`: the future with a freshly allocated id. */
  method NewTask(counter: IdCounter, future: FutureId) returns (t: Task)
    requires counter.Valid()
    modifies counter
    ensures counter.Valid()
    ensures t == Task(TaskId(old(counter.next)), future)
    ensures counter.issued == old(counter.issued) + [t.id]
  {
    var id := counter.NewId();
    t := Task(id, future);
  }

  /** Among the first 2^64 ids, a later id is greater than an earlier one, so no
      id is handed out twice. */
  lemma IdsIncrease(issued: seq<TaskId>, i: nat, j: nat)
    requires forall k :: 0 <= k < |issued| ==> issued[k].value == k % U64Modulus
    requires i < j < |issued| <= U64Modulus
    ensures Less(issued[i], issued[j]) && issued[i] != issued[j]
  {
    assert issued[i].value == i && issued[j].value == j;
  }

  /** Once 2^64 ids have been handed out the counter has wrapped and the first id
      comes round again. */
  lemma IdsRepeatAfterWrap(issued: seq<TaskId>)
    requires forall k :: 0 <= k < |issued| ==> issued[k].value == k % U64Modulus
    requires |issued| > U64Modulus
    ensures issued[U64Modulus] == issued[0]
  {
    assert issued[U64Modulus].value == U64Modulus % U64Modulus == 0;
  }
}
