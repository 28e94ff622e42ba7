/** The request life cycle of networks/request.py: a status machine whose terminal
    states are sticky, with an append-only status history, and whose QoS limit and
    size are fixed by its priority. */
module Requests {
  import opened Common

  datatype RequestStatus =
    | Created
    | InTransit
    | InProcessingQueue
    | Processing
    | Completed
    | Failed

  datatype Priority = Low | Medium | High

  predicate IsTerminal(s: RequestStatus) {
    s == Completed || s == Failed
  }

  /** Position of a priority in the enum order LOW < MEDIUM < HIGH. */
  function Rank(p: Priority): nat {
    match p
    case Low => 1
    case Medium => 2
    case High => 3
  }

  /** The QoS limit, in seconds, that a priority imposes. */
  function QosLimit(p: Priority): real {
    match p
    case High => 0.2
    case Medium => 0.5
    case Low => 1.0
  }

  /** Smallest and largest size multiplier, in megabits, drawn for a priority. */
  function SizeBounds(p: Priority): (int, int) {
    match p
    case High => (1, 3)
    case Medium => (4, 6)
    case Low => (7, 10)
  }

  /** k megabits, in bits. */
  function Megabits(k: int): real {
    k as real * 1000000.0
  }

  /** Every size a request of priority p may be given at creation. */
  function AllowedSizes(p: Priority): set<real> {
    set k: int | SizeBounds(p).0 <= k <= SizeBounds(p).1 :: Megabits(k)
  }

  /** A higher priority has a strictly tighter QoS limit and strictly smaller sizes. */
  lemma PriorityOrdering(p: Priority, q: Priority, s: real, t: real)
    requires Rank(p) < Rank(q)
    requires s in AllowedSizes(q) && t in AllowedSizes(p)
    ensures QosLimit(q) < QosLimit(p)
    ensures s < t
  {
    var ks :| SizeBounds(q).0 <= ks <= SizeBounds(q).1 && s == Megabits(ks);
    var kt :| SizeBounds(p).0 <= kt <= SizeBounds(p).1 && t == Megabits(kt);
    assert ks < kt;
  }

  /** The class-wide id counter (`Request.id_counter`). */
  class IdCounter {
    var next: nat

    constructor()
      ensures next == 0
    {
      next := 0;
    }
  }

  /** A request. `Node` is the node class; the request only stores node references. */
  class Request<Node> {
    const id: nat
    const creationTime: int
    const tickTime: real
    const priority: Priority
    var currentNode: Node
    var nextNode: Option<Node>
    var targetNode: Option<Node>
    var status: RequestStatus
    var processingProgress: real
    var qosLimit: real
    var size: real
    var lastStatusChange: int
    var statusHistory: seq<(RequestStatus, int)>
    var path: seq<Node>
    var pathIndex: nat

    /** The history is never empty, starts with (CREATED, creation tick), and its last
        entry is the current status stamped with the last change. */
    ghost predicate Valid()
      reads this
    {
      && |statusHistory| >= 1
      && statusHistory[0] == (Created, creationTime)
      && statusHistory[|statusHistory| - 1] == (status, lastStatusChange)
      && creationTime <= lastStatusChange
    }

    /** Builds a request at tick `tick`; the priority is a random member of Priority and the
        size a random multiple of 1e6 in the range that priority allows. */
    constructor(counter: IdCounter, tick: int, tickTime: real, initialNode: Node, targetNode: Option<Node>)
      modifies counter
      ensures id == old(counter.next) && counter.next == old(counter.next) + 1
      ensures status == Created && creationTime == tick && lastStatusChange == tick
      ensures statusHistory == [(Created, tick)]
      ensures path == [] && pathIndex == 0 && processingProgress == 0.0
      ensures currentNode == initialNode && this.targetNode == targetNode && nextNode == None
      ensures this.tickTime == tickTime
      ensures qosLimit == QosLimit(priority) && size in AllowedSizes(priority)
      ensures Valid()
    {
      id := counter.next;
      counter.next := counter.next + 1;
      currentNode := initialNode;
      nextNode := None;
      this.targetNode := targetNode;
      status := Created;
      processingProgress := 0.0;
      qosLimit := 0.0;
      size := 0.0;
      var p :| p in {Low, Medium, High};
      priority := p;
      creationTime := tick;
      lastStatusChange := tick;
      statusHistory := [(Created, tick)];
      path := [];
      pathIndex := 0;
      this.tickTime := tickTime;
      new;
      SetPriorityType(p);
    }

    /** Overwrites the size and nothing else. */
    method SetSize(newSize: real)
      modifies this`size
      ensures size == newSize
    {
      size := newSize;
    }

    /** Sets the QoS limit of `p` and draws a size allowed for `p`; the stored priority is untouched. */
    method SetPriorityType(p: Priority)
      modifies this`qosLimit, this`size
      ensures qosLimit == QosLimit(p) && size in AllowedSizes(p)
    {
      var k: int;
      match p {
        case High =>
          qosLimit := 0.2;
          k :| 1 <= k <= 3;
        case Medium =>
          qosLimit := 0.5;
          k :| 4 <= k <= 6;
        case Low =>
          qosLimit := 1.0;
          k :| 7 <= k <= 10;
      }
      size := Megabits(k);
    }

    /** Moves a non-terminal request to `newStatus` at tick `now`, appending one history
        entry; a COMPLETED or FAILED request is left exactly as it was. The QoS check
        assigns FAILED, but that assignment is always overwritten by `newStatus`. */
    method UpdateStatus(newStatus: RequestStatus, now: int)
      modifies this`status, this`statusHistory, this`lastStatusChange
      ensures IsTerminal(old(status)) ==>
        status == old(status) && statusHistory == old(statusHistory) && lastStatusChange == old(lastStatusChange)
      ensures !IsTerminal(old(status)) ==>
        status == newStatus && statusHistory == old(statusHistory) + [(newStatus, now)] && lastStatusChange == now
      ensures old(Valid()) && now >= old(lastStatusChange) ==> Valid()
    {
      if status == Completed || status == Failed {
        return;
      }
      if !((now - creationTime) as real * tickTime <= qosLimit) {
        status := Failed;
      }
      statusHistory := statusHistory + [(newStatus, now)];
      status := newStatus;
      lastStatusChange := now;
    }
  }
}
