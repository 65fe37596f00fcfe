/** The hand-off queue between the fetch loop and the workers: records
    join at the back and leave from the front. */
module ResponseQueue {
  import opened Results

  datatype Queue<T> = Queue(items: seq<T>)

  function NewQueue<T>(): (q: Queue<T>)
    ensures |q.items| == 0
  {
    Queue([])
  }

  /** `enqueue`: `item` becomes the newest element; the others keep their order. */
  function Enqueue<T>(q: Queue<T>, item: T): (r: Queue<T>)
    ensures |r.items| == |q.items| + 1
    ensures r.items[|q.items|] == item
    ensures r.items[..|q.items|] == q.items
  {
    Queue(q.items + [item])
  }

  /** `dequeue`: the oldest element, removed; `None` and no change when empty. */
  function Dequeue<T>(q: Queue<T>): (r: (Option<T>, Queue<T>))
    ensures |q.items| == 0 ==> r.0 == None && r.1 == q
    ensures |q.items| > 0 ==> r.0 == Some(q.items[0]) && [q.items[0]] + r.1.items == q.items
  {
    if |q.items| == 0 then (None, q) else (Some(q.items[0]), Queue(q.items[1..]))
  }

  /** Enqueue every element of `xs`, first to last. */
  function EnqueueAll<T>(q: Queue<T>, xs: seq<T>): Queue<T>
    decreases |xs|
  {
    if |xs| == 0 then q else EnqueueAll(Enqueue(q, xs[0]), xs[1..])
  }

  /** Dequeue until the queue is empty, collecting what comes out. */
  function DequeueAll<T>(q: Queue<T>): seq<T>
    decreases |q.items|
  {
    var (front, rest) := Dequeue(q);
    match front
    case None => []
    case Some(x) => [x] + DequeueAll(rest)
  }

  lemma {:induction false} EnqueueAllAppends<T>(q: Queue<T>, xs: seq<T>)
    ensures EnqueueAll(q, xs).items == q.items + xs
    decreases |xs|
  {
    if |xs| > 0 {
      EnqueueAllAppends(Enqueue(q, xs[0]), xs[1..]);
      assert q.items + [xs[0]] + xs[1..] == q.items + xs;
    }
  }

  lemma {:induction false} DequeueAllYieldsItems<T>(q: Queue<T>)
    ensures DequeueAll(q) == q.items
    decreases |q.items|
  {
    if |q.items| > 0 {
      DequeueAllYieldsItems(Dequeue(q).1);
    }
  }

  /** First in, first out: whatever was queued comes out oldest first, each
      element exactly once, followed by whatever is enqueued later. */
  lemma Fifo<T>(q: Queue<T>, xs: seq<T>)
    ensures DequeueAll(EnqueueAll(q, xs)) == q.items + xs
  {
    EnqueueAllAppends(q, xs);
    DequeueAllYieldsItems(EnqueueAll(q, xs));
  }
}
