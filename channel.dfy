/** The bounded frame queue between the capture stage and the inference
    stage (`frame_queue = queue.Queue(maxsize=10)`), and the drop-oldest
    push the capture loop performs on it. */
module Channel {
  import opened Types

  /** The queue's `maxsize`. */
  const Capacity: nat := 10

  /** The last `n` elements of `s` (all of `s` when it is shorter). */
  function LastN<T>(s: seq<T>, n: nat): (r: seq<T>)
    ensures |r| == if |s| <= n then |s| else n
    ensures r == s[|s| - |r|..]
  {
    if |s| <= n then s else s[|s| - n..]
  }

  /** The queue after the capture loop pushes `f`: when the queue is full
      the oldest frame is taken off first, then `f` goes to the back. */
  function Pushed(q: seq<Frame>, f: Frame): (r: seq<Frame>)
    ensures |q| <= Capacity ==> |r| <= Capacity && r == LastN(q + [f], Capacity)
  {
    if |q| >= Capacity then q[1..] + [f] else q + [f]
  }

  /** The queue after the capture loop pushes each of `fs` in turn; it
      never grows past the bound. */
  function PushAll(q: seq<Frame>, fs: seq<Frame>): (r: seq<Frame>)
    ensures |q| <= Capacity ==> |r| <= Capacity
    decreases |fs|
  {
    if fs == [] then q else Pushed(PushAll(q, fs[..|fs| - 1]), fs[|fs| - 1])
  }

  lemma PushAllSnoc(q: seq<Frame>, fs: seq<Frame>, f: Frame)
    ensures PushAll(q, fs + [f]) == Pushed(PushAll(q, fs), f)
  {
    assert (fs + [f])[..|fs|] == fs;
  }

  /** Keeping the last `n` of a prefix and then the last `n` of the whole
      is the same as keeping the last `n` of the whole. */
  lemma LastNAbsorbs<T>(xs: seq<T>, ys: seq<T>, n: nat)
    ensures LastN(LastN(xs, n) + ys, n) == LastN(xs + ys, n)
  {
    var k := |xs| - |LastN(xs, n)|;
    assert LastN(xs, n) + ys == (xs + ys)[k..];
  }

  /** A full queue that is pushed onto loses exactly its front frame, and
      the new frame becomes its back. */
  lemma PushOntoFull(q: seq<Frame>, f: Frame)
    requires |q| == Capacity
    ensures |Pushed(q, f)| == Capacity
    ensures Pushed(q, f)[..Capacity - 1] == q[1..]
    ensures Pushed(q, f)[Capacity - 1] == f
  {
  }

  /** Whatever the queue held, the frame pushed last ends up at its back. */
  lemma PushAllLastAtBack(q: seq<Frame>, fs: seq<Frame>)
    requires fs != []
    ensures |PushAll(q, fs)| > 0 && PushAll(q, fs)[|PushAll(q, fs)| - 1] == fs[|fs| - 1]
  {
    var before := PushAll(q, fs[..|fs| - 1]);
    assert PushAll(q, fs) == Pushed(before, fs[|fs| - 1]);
  }

  /** Drop-oldest law: however many frames are pushed, the queue holds the
      (at most Capacity) most recently pushed frames, in push order. */
  lemma {:induction false} PushAllKeepsMostRecent(q: seq<Frame>, fs: seq<Frame>)
    requires |q| <= Capacity
    ensures |PushAll(q, fs)| <= Capacity
    ensures PushAll(q, fs) == LastN(q + fs, Capacity)
    decreases |fs|
  {
    if fs == [] {
      assert q + fs == q;
    } else {
      var init, last := fs[..|fs| - 1], fs[|fs| - 1];
      PushAllKeepsMostRecent(q, init);
      var before := PushAll(q, init);
      assert PushAll(q, fs) == Pushed(before, last) == LastN(before + [last], Capacity);
      LastNAbsorbs(q + init, [last], Capacity);
      assert q + init + [last] == q + fs;
    }
  }

  class FrameQueue {
    /** The buffered frames, oldest first. */
    var items: seq<Frame>

    ghost predicate Valid()
      reads this
    {
      |items| <= Capacity
    }

    constructor ()
      ensures Valid() && items == []
    {
      items := [];
    }

    /** `full()`: the queue holds `maxsize` frames. */
    predicate Full()
      reads this
      ensures Valid() ==> (Full() <==> |items| == Capacity)
    {
      |items| >= Capacity
    }

    /** `empty()`. */
    predicate Empty()
      reads this
      ensures Empty() ==> !Full()
    {
      items == []
    }

    /** `put(f)`. On a full queue the call would block; here it returns
        false and leaves the queue as it was. */
    method Put(f: Frame) returns (ok: bool)
      requires Valid()
      modifies this
      ensures Valid()
      ensures ok <==> |old(items)| < Capacity
      ensures items == if ok then old(items) + [f] else old(items)
    {
      ok := !Full();
      if ok {
        items := items + [f];
      }
    }

    /** `get()`: removes and returns the oldest frame. On an empty queue
        the call would block; here it returns None and consumes nothing. */
    method Get() returns (f: Option<Frame>)
      requires Valid()
      modifies this
      ensures Valid()
      ensures old(items) == [] ==> f == None && items == []
      ensures old(items) != [] ==> f == Some(old(items)[0]) && items == old(items)[1..]
    {
      if items == [] {
        f := None;
      } else {
        f := Some(items[0]);
        items := items[1..];
      }
    }

    /** The capture loop's push: `if full(): get()` then `put(f)`. */
    method PushDropOldest(f: Frame)
      requires Valid()
      modifies this
      ensures Valid()
      ensures items == Pushed(old(items), f)
    {
      if Full() {
        var dropped := Get();
      }
      var ok := Put(f);
    }
  }
}
