/** The packet queues of the coding layer.  A queue is a linked list of entries that other structures
    point into, so every entry sits in a cell of its own; pointers are never reused. */
module MyncQueues {
  import opened Addresses
  import opened XorCoding

  /** A queued packet.  The id of a hello is never set and can be anything. */
  datatype Entry = Entry(hello: bool, pid: PacketId, dest: Mac48Address, iface: nat, retry: nat, packet: Bytes) {
    /** Indexed by the virtual queue of a neighbour. */
    predicate Unicast() {
      !hello && dest != BROADCAST
    }

    predicate HitMax() {
      retry == 3
    }
  }

  const MAX_SIZE := 800

  /** The pointers in list order, the cells they designate, and the next unused pointer. */
  datatype Queue = Queue(order: seq<nat>, cells: map<nat, Entry>, next: nat)

  const EMPTY := Queue([], map[], 0)

  ghost predicate NoDuplicates(s: seq<nat>) {
    forall i, j | 0 <= i < j < |s| :: s[i] != s[j]
  }

  ghost predicate Good(q: Queue) {
    && NoDuplicates(q.order)
    && (forall p :: p in q.order <==> p in q.cells)
    && (forall p | p in q.cells :: p < q.next)
    && (forall p, p' | p in q.cells && p' in q.cells && q.cells[p].pid == q.cells[p'].pid :: p == p')
    && |q.order| <= MAX_SIZE
  }

  // ---------- The operations on values ----------

  predicate HoldsPid(q: Queue, pid: PacketId) {
    exists p | p in q.order :: p in q.cells && q.cells[p].pid == pid
  }

  predicate Admits(q: Queue, pid: PacketId) {
    |q.order| != MAX_SIZE && !HoldsPid(q, pid)
  }

  function EnqueuedBack(q: Queue, e: Entry): Queue {
    if Admits(q, e.pid) then Queue(q.order + [q.next], q.cells[q.next := e], q.next + 1) else q
  }

  function EnqueuedFront(q: Queue, e: Entry): Queue {
    if Admits(q, e.pid) then Queue([q.next] + q.order, q.cells[q.next := e], q.next + 1) else q
  }

  function Dequeued(q: Queue): Queue
    requires q.order != []
  {
    Queue(q.order[1..], q.cells - {q.order[0]}, q.next)
  }

  /** The position of the first entry with the given id, or the size of the queue. */
  function PositionOf(order: seq<nat>, cells: map<nat, Entry>, pid: PacketId): (k: nat)
    ensures k <= |order|
    ensures k < |order| ==> order[k] in cells && cells[order[k]].pid == pid
    ensures forall j | 0 <= j < k :: !(order[j] in cells && cells[order[j]].pid == pid)
  {
    if order == [] || (order[0] in cells && cells[order[0]].pid == pid) then 0
    else 1 + PositionOf(order[1..], cells, pid)
  }

  function Erased(q: Queue, pid: PacketId): Queue {
    var k := PositionOf(q.order, q.cells, pid);
    if k == |q.order| then q else Queue(q.order[..k] + q.order[k + 1..], q.cells - {q.order[k]}, q.next)
  }

  // ---------- What the operations keep ----------

  lemma AdmitsIff(q: Queue, pid: PacketId)
    requires Good(q)
    ensures Admits(q, pid) <==> |q.order| < MAX_SIZE && forall p | p in q.cells :: q.cells[p].pid != pid
  {
    if p :| p in q.cells && q.cells[p].pid == pid {
      assert p in q.order;
    }
  }

  lemma EnqueuedGood(q: Queue, e: Entry)
    requires Good(q)
    ensures Good(EnqueuedBack(q, e)) && Good(EnqueuedFront(q, e))
    ensures Admits(q, e.pid) <==> |q.order| < MAX_SIZE && forall p | p in q.cells :: q.cells[p].pid != e.pid
  {
    hide Admits, Good;
    AdmitsIff(q, e.pid);
    if Admits(q, e.pid) {
      CellAdded(q, e, q.order + [q.next]);
      CellAdded(q, e, [q.next] + q.order);
    }
  }

  /** The new cell at either end of the list. */
  lemma CellAdded(q: Queue, e: Entry, order: seq<nat>)
    requires Good(q) && |q.order| < MAX_SIZE && forall p | p in q.cells :: q.cells[p].pid != e.pid
    requires order == q.order + [q.next] || order == [q.next] + q.order
    ensures Good(Queue(order, q.cells[q.next := e], q.next + 1))
  {
    assert q.next !in q.order;
    assert forall p :: p in order <==> p in q.order || p == q.next;
  }

  lemma DequeuedGood(q: Queue)
    requires Good(q) && q.order != []
    ensures Good(Dequeued(q)) && q.order[0] in q.cells
    ensures Dequeued(q).cells == q.cells - {q.order[0]}
  {
  }

  lemma PositionFound(q: Queue, pid: PacketId)
    requires Good(q)
    ensures PositionOf(q.order, q.cells, pid) < |q.order| <==> exists p :: p in q.cells && q.cells[p].pid == pid
  {
    if p :| p in q.cells && q.cells[p].pid == pid {
      assert p in q.order;
      var j :| 0 <= j < |q.order| && q.order[j] == p;
    }
  }

  lemma RemovedAt(s: seq<nat>, k: nat)
    requires k < |s| && NoDuplicates(s)
    ensures NoDuplicates(s[..k] + s[k + 1..])
    ensures forall p :: p in s[..k] + s[k + 1..] <==> p in s && p != s[k]
  {
    var r := s[..k] + s[k + 1..];
    forall p | p in s && p != s[k]
      ensures p in r
    {
      var j :| 0 <= j < |s| && s[j] == p;
      assert r[if j < k then j else j - 1] == p;
    }
  }

  /** Erasing by id removes exactly the cell with that id. */
  lemma ErasedGood(q: Queue, pid: PacketId)
    requires Good(q)
    ensures Good(Erased(q, pid))
    ensures forall p :: p in Erased(q, pid).cells <==> p in q.cells && q.cells[p].pid != pid
    ensures forall p | p in Erased(q, pid).cells :: Erased(q, pid).cells[p] == q.cells[p]
  {
    var k := PositionOf(q.order, q.cells, pid);
    PositionFound(q, pid);
    if k < |q.order| {
      RemovedAt(q.order, k);
    }
  }

  lemma PositionIs(order: seq<nat>, cells: map<nat, Entry>, pid: PacketId, k: nat)
    requires k <= |order| && forall j | 0 <= j < |order| :: order[j] in cells
    requires k < |order| ==> cells[order[k]].pid == pid
    requires forall j | 0 <= j < k :: cells[order[j]].pid != pid
    ensures PositionOf(order, cells, pid) == k
  {
  }

  // ---------- The class ----------

  class MyncQueue {
    var order: seq<nat>
    var cells: map<nat, Entry>
    var next: nat

    ghost function View(): Queue
      reads this
    {
      Queue(order, cells, next)
    }

    ghost predicate Valid()
      reads this
    {
      Good(View())
    }

    constructor ()
      ensures Valid() && View() == EMPTY
    {
      order, cells, next := [], map[], 0;
    }

    method HasPid(pid: PacketId) returns (found: bool)
      requires Valid()
      ensures found == HoldsPid(View(), pid)
    {
      for i := 0 to |order|
        invariant forall j | 0 <= j < i :: cells[order[j]].pid != pid
      {
        if cells[order[i]].pid == pid {
          return true;
        }
      }
      return false;
    }

    method EnqueueBack(e: Entry) returns (added: bool)
      requires Valid()
      modifies this
      ensures Valid() && View() == EnqueuedBack(old(View()), e) && added == Admits(old(View()), e.pid)
    {
      EnqueuedGood(View(), e);
      if |order| == MAX_SIZE {
        return false;
      }
      var duplicate := HasPid(e.pid);
      if duplicate {
        return false;
      }
      order, cells, next := order + [next], cells[next := e], next + 1;
      return true;
    }

    method EnqueueFront(e: Entry) returns (added: bool)
      requires Valid()
      modifies this
      ensures Valid() && View() == EnqueuedFront(old(View()), e) && added == Admits(old(View()), e.pid)
    {
      EnqueuedGood(View(), e);
      if |order| == MAX_SIZE {
        return false;
      }
      var duplicate := HasPid(e.pid);
      if duplicate {
        return false;
      }
      order, cells, next := [next] + order, cells[next := e], next + 1;
      return true;
    }

    method Dequeue() returns (e: Entry)
      requires Valid() && order != []
      modifies this
      ensures Valid() && View() == Dequeued(old(View())) && e == old(cells[order[0]])
    {
      DequeuedGood(View());
      e := cells[order[0]];
      order, cells := order[1..], cells - {order[0]};
    }

    /** The loop of Erase: where the first entry with the id is. */
    method Position(pid: PacketId) returns (k: nat)
      requires Valid()
      ensures k == PositionOf(order, cells, pid)
    {
      k := 0;
      while k < |order|
        invariant k <= |order| && forall j | 0 <= j < k :: cells[order[j]].pid != pid
      {
        if cells[order[k]].pid == pid {
          PositionIs(order, cells, pid, k);
          return;
        }
        k := k + 1;
      }
      PositionIs(order, cells, pid, k);
    }

    method Erase(pid: PacketId) returns (erased: bool)
      requires Valid()
      modifies this
      ensures Valid() && View() == Erased(old(View()), pid)
      ensures erased == (PositionOf(old(order), old(cells), pid) < |old(order)|)
    {
      hide Good, PositionOf;
      ErasedGood(View(), pid);
      var k := Position(pid);
      erased := k < |order|;
      if erased {
        order, cells := order[..k] + order[k + 1..], cells - {order[k]};
      }
    }
  }
}
