/** The message lists of kernel/msg.c, as words in memory: struct mqueue with its head, tail, count and size, and
    struct msg, of which mem_alloc gives a new one for each message. The code neither sets `next` nor sets `tail`
    before there is a message, and nothing is assumed of what a new block holds there: count guards every read. */
module Messages {
  import opened Lists
  import opened KernelSpec

  type Words = map<int, int>

  /** The word at an address, whatever was there. */
  function At(w: Words, a: int): int {
    if a in w then w[a] else 0
  }

  /** From head on, following next for as many nodes as there are messages; tail is the last of them. */
  ghost predicate Threads(next: Words, data: Words, head: int, tail: int, nodes: seq<int>, msgs: seq<int>) {
    && |nodes| == |msgs| && NoRepeats(nodes)
    && (forall i {:trigger nodes[i]} :: 0 <= i < |nodes| ==> At(data, nodes[i]) == msgs[i])
    && (forall i {:trigger nodes[i]} :: 0 < i < |nodes| ==> At(next, nodes[i - 1]) == nodes[i])
    && (nodes != [] ==> head == nodes[0] && tail == nodes[|nodes| - 1])
  }

  /** The nodes all belong to queue id. */
  predicate Own(owner: Words, nodes: seq<int>, id: int) {
    forall x :: x in nodes ==> x in owner && owner[x] == id
  }

  /** Writes outside a list, and new nodes, leave it alone. */
  lemma ThreadsKept(next: Words, data: Words, next': Words, data': Words, head: int, tail: int,
      nodes: seq<int>, msgs: seq<int>)
    requires Threads(next, data, head, tail, nodes, msgs)
    requires forall x :: x in nodes ==> At(data', x) == At(data, x) && At(next', x) == At(next, x)
    ensures Threads(next', data', head, tail, nodes, msgs)
  {
    forall i {:trigger nodes[i]} | 0 <= i < |nodes| ensures At(data', nodes[i]) == msgs[i] {
      assert nodes[i] in nodes;
    }
    forall i {:trigger nodes[i]} | 0 < i < |nodes| ensures At(next', nodes[i - 1]) == nodes[i] {
      assert nodes[i - 1] in nodes;
    }
  }

  lemma ThreadsPopped(next: Words, data: Words, head: int, tail: int, nodes: seq<int>, msgs: seq<int>)
    requires Threads(next, data, head, tail, nodes, msgs) && nodes != []
    ensures Threads(next, data, At(next, head), tail, nodes[1..], msgs[1..]) && At(data, head) == msgs[0]
  {
    assert |nodes| > 1 ==> At(next, nodes[0]) == nodes[1];
    assert NoRepeats(nodes[1..]);
  }

  /** A new node at the end, linked from the old tail if there is one. */
  lemma ThreadsAppended(next: Words, data: Words, head: int, tail: int, nodes: seq<int>, msgs: seq<int>,
      node: int, msg: int)
    requires Threads(next, data, head, tail, nodes, msgs) && node !in nodes
    ensures Threads(if nodes == [] then next else next[tail := node], data[node := msg],
                    if nodes == [] then node else head, node, nodes + [node], msgs + [msg])
  {
    var more, next' := nodes + [node], if nodes == [] then next else next[tail := node];
    forall i {:trigger more[i]} | 0 <= i < |more| ensures At(data[node := msg], more[i]) == (msgs + [msg])[i] {
      assert i < |nodes| ==> more[i] == nodes[i] && nodes[i] in nodes;
    }
    forall i {:trigger more[i]} | 0 < i < |more| ensures At(next', more[i - 1]) == more[i] {
      assert more[i - 1] == nodes[i - 1];
      assert i < |nodes| ==> more[i] == nodes[i] && nodes[i - 1] != nodes[|nodes| - 1];
    }
  }

  /** struct mqueue, but for the waiting lists. */
  datatype Box = Box(head: int, tail: int, size: int, count: int)

  /** The words of queue id and its nodes stand for mq. */
  ghost predicate Stands(box: Box, next: Words, data: Words, owner: Words, nodes: seq<int>, mq: MQueue, id: int) {
    box.size == mq.size && box.count == |mq.msgs| && Threads(next, data, box.head, box.tail, nodes, mq.msgs) &&
      Own(owner, nodes, id)
  }

  /** So it is for every queue. */
  ghost predicate Held(boxes: map<int, Box>, next: Words, data: Words, owner: Words, nodes: map<int, seq<int>>,
                       mqs: map<int, MQueue>) {
    boxes.Keys == nodes.Keys == mqs.Keys &&
      forall id :: id in mqs ==> Stands(boxes[id], next, data, owner, nodes[id], mqs[id], id)
  }

  /** No block is given out twice. */
  ghost predicate Injective(place: nat -> int) {
    forall m: nat, n: nat :: place(m) == place(n) ==> m == n
  }

  ghost predicate Given(place: nat -> int, given: nat, x: int) {
    exists n: nat :: n < given && place(n) == x
  }

  /** The nodes are blocks that were given out. */
  ghost predicate Places(place: nat -> int, given: nat, owner: Words) {
    Injective(place) && forall x :: x in owner ==> Given(place, given, x)
  }

  lemma NextPlace(place: nat -> int, given: nat, owner: Words, id: int)
    requires Places(place, given, owner)
    ensures place(given) !in owner && Places(place, given + 1, owner[place(given) := id])
  {
    var more := owner[place(given) := id];
    assert !Given(place, given, place(given));
    forall x | x in more ensures Given(place, given + 1, x) {
      if x in owner {
        assert Given(place, given, x);
        var n: nat :| n < given && place(n) == x;
      } else {
        assert given < given + 1 && place(given) == x;
      }
    }
  }

  class Boxes {
    const place: nat -> int  // the addresses that mem_alloc returns, one after the other
    var given: nat           // how many it has returned
    var boxes: map<int, Box> // the queues in use
    var next: Words          // by the address of a struct msg
    var data: Words
    ghost var owner: Words   // the queue of each node
    ghost var nodes: map<int, seq<int>>
    ghost var mqs: map<int, MQueue>

    /** The words thread the messages of every queue. */
    ghost predicate Valid()
      reads this
    {
      Held(boxes, next, data, owner, nodes, mqs) && Places(place, given, owner)
    }

    /** No queue is in use, and memory holds anything. */
    constructor (place: nat -> int, next: Words, data: Words)
      requires Injective(place)
      ensures Valid() && mqs == map[]
    {
      this.place, given := place, 0;
      boxes, owner, nodes, mqs := map[], map[], map[], map[];
      this.next, this.data := next, data;
    }

    /** MQUEUE_USED. */
    method IsUsed(id: int) returns (r: bool)
      requires Valid()
      ensures r <==> id in mqs
    {
      r := id in boxes;
    }

    /** MQUEUE_EMPTY. */
    method IsEmpty(id: int) returns (r: bool)
      requires Valid() && id in mqs
      ensures r <==> mqs[id].msgs == []
    {
      r := boxes[id].count == 0;
    }

    /** MQUEUE_FULL. */
    method IsFull(id: int) returns (r: bool)
      requires Valid() && id in mqs
      ensures r <==> |mqs[id].msgs| == mqs[id].size
    {
      r := boxes[id].count == boxes[id].size;
    }

    /** The number of messages. */
    method Count(id: int) returns (n: int)
      requires Valid() && id in mqs
      ensures n == |mqs[id].msgs|
    {
      n := boxes[id].count;
    }

    /** alloc_mqueue; junk is what the new block holds where tail is. */
    method Open(id: int, n: int, junk: int)
      requires Valid() && id !in mqs
      modifies this
      ensures Valid() && mqs == old(mqs)[id := MQueue(n, [])]
    {
      hide Places;
      boxes := boxes[id := Box(0, junk, n, 0)];
      nodes, mqs := nodes[id := []], mqs[id := MQueue(n, [])];
    }

    /** __add_msg. */
    method Add(id: int, msg: int)
      requires Valid() && id in mqs
      modifies this
      ensures Valid() && mqs == old(mqs)[id := old(mqs)[id].(msgs := old(mqs)[id].msgs + [msg])]
    {
      hide Held, Places;
      var node := place(given);
      NextPlace(place, given, owner, id);
      Added(boxes, next, data, owner, nodes, mqs, node, msg, id);
      ghost var box := boxes[id];
      given := given + 1;
      data := data[node := msg];
      if boxes[id].count == 0 {
        boxes := boxes[id := boxes[id].(head := node, tail := node)];
      } else {
        next := next[boxes[id].tail := node];
        boxes := boxes[id := boxes[id].(tail := node)];
      }
      boxes := boxes[id := boxes[id].(count := boxes[id].count + 1)];
      assert boxes == old(boxes)[id := Box(if box.count == 0 then node else box.head, node, box.size, box.count + 1)];
      owner, nodes := owner[node := id], nodes[id := nodes[id] + [node]];
      mqs := mqs[id := mqs[id].(msgs := mqs[id].msgs + [msg])];
    }

    /** __pop_msg, which leaves the node allocated. */
    method Pop(id: int) returns (msg: int)
      requires Valid() && id in mqs && mqs[id].msgs != []
      modifies this
      ensures Valid() && mqs == old(mqs)[id := old(mqs)[id].(msgs := old(mqs)[id].msgs[1..])] &&
        msg == old(mqs)[id].msgs[0]
    {
      hide Held, Stands, Places;
      Popped(boxes, next, data, owner, nodes, mqs, id);
      ghost var box := boxes[id];
      boxes := boxes[id := boxes[id].(count := boxes[id].count - 1)];
      msg := At(data, boxes[id].head);
      boxes := boxes[id := boxes[id].(head := At(next, boxes[id].head))];
      assert boxes == old(boxes)[id := box.(head := At(next, box.head), count := box.count - 1)];
      nodes := nodes[id := nodes[id][1..]];
      mqs := mqs[id := mqs[id].(msgs := mqs[id].msgs[1..])];
    }
  }

  lemma FirstNode(next: Words, data: Words, head: int, tail: int, owner: Words, q: seq<int>, msgs: seq<int>, id: int)
    requires Threads(next, data, head, tail, q, msgs) && Own(owner, q, id) && msgs != []
    ensures q != [] && Threads(next, data, At(next, head), tail, q[1..], msgs[1..]) && Own(owner, q[1..], id)
    ensures At(data, head) == msgs[0]
  {
    ThreadsPopped(next, data, head, tail, q, msgs);
  }

  /** A new node in queue id, as __add_msg links it. */
  lemma NewNode(box: Box, next: Words, data: Words, owner: Words, q: seq<int>, mq: MQueue, node: int, msg: int, id: int)
    requires Stands(box, next, data, owner, q, mq, id) && node !in owner
    ensures var next' := if box.count == 0 then next else next[box.tail := node];
      Stands(Box(if box.count == 0 then node else box.head, node, box.size, box.count + 1), next', data[node := msg],
             owner[node := id], q + [node], mq.(msgs := mq.msgs + [msg]), id)
    ensures box.count != 0 ==> box.tail in owner && owner[box.tail] == id
  {
    ThreadsAppended(next, data, box.head, box.tail, q, mq.msgs, node, msg);
  }

  /** The list of another queue is untouched. */
  lemma OthersKept(box: Box, next: Words, next': Words, data: Words, owner: Words, nodes: seq<int>,
      mq: MQueue, other: int, id: int, last: int, node: int, msg: int)
    requires Stands(box, next, data, owner, nodes, mq, other) && other != id && node !in owner
    requires next' == next || (next' == next[last := node] && last in owner && owner[last] == id)
    ensures Stands(box, next', data[node := msg], owner[node := id], nodes, mq, other)
  {
    ThreadsKept(next, data, next', data[node := msg], box.head, box.tail, nodes, mq.msgs);
  }

  lemma Added(boxes: map<int, Box>, next: Words, data: Words, owner: Words, nodes: map<int, seq<int>>,
      mqs: map<int, MQueue>, node: int, msg: int, id: int)
    requires Held(boxes, next, data, owner, nodes, mqs) && id in mqs && node !in owner
    ensures id in boxes && id in nodes
    ensures var box := boxes[id];
      Held(boxes[id := Box(if box.count == 0 then node else box.head, node, box.size, box.count + 1)],
           if box.count == 0 then next else next[box.tail := node], data[node := msg], owner[node := id],
           nodes[id := nodes[id] + [node]], mqs[id := mqs[id].(msgs := mqs[id].msgs + [msg])])
  {
    hide Stands;
    var last, next' := boxes[id].tail, if boxes[id].count == 0 then next else next[boxes[id].tail := node];
    NewNode(boxes[id], next, data, owner, nodes[id], mqs[id], node, msg, id);
    forall other | other in mqs && other != id
      ensures Stands(boxes[other], next', data[node := msg], owner[node := id], nodes[other], mqs[other], other)
    {
      OthersKept(boxes[other], next, next', data, owner, nodes[other], mqs[other], other, id, last, node, msg);
    }
  }

  lemma Popped(boxes: map<int, Box>, next: Words, data: Words, owner: Words, nodes: map<int, seq<int>>,
      mqs: map<int, MQueue>, id: int)
    requires Held(boxes, next, data, owner, nodes, mqs) && id in mqs && mqs[id].msgs != []
    ensures id in boxes && id in nodes && nodes[id] != [] && At(data, boxes[id].head) == mqs[id].msgs[0]
    ensures Held(boxes[id := boxes[id].(head := At(next, boxes[id].head), count := boxes[id].count - 1)],
                 next, data, owner, nodes[id := nodes[id][1..]], mqs[id := mqs[id].(msgs := mqs[id].msgs[1..])])
  {
    hide Threads, Own;
    FirstNode(next, data, boxes[id].head, boxes[id].tail, owner, nodes[id], mqs[id].msgs, id);
  }
}
