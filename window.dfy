/**
 * The sliding window of DefaultWhisperService as a value: a FIFO of at
 * most `capacity` chunks, into which each accepted chunk is pushed and
 * from which the oldest is dropped once the window would overflow.
 */
module Window {
  /** One accepted chunk joins a window of `capacity` chunks; the oldest leaves once there would be more. */
  function Slide<T>(window: seq<T>, chunk: T, capacity: nat): (w: seq<T>)
    requires 0 < capacity && |window| <= capacity
    ensures |w| <= capacity && w != [] && w[|w| - 1] == chunk
    ensures |w| == if |window| == capacity then capacity else |window| + 1
    ensures forall i | 0 <= i < |w| - 1 :: w[i] == window[|window| + 1 - |w| + i]
  {
    var grown := window + [chunk];
    if |grown| > capacity then grown[1..] else grown
  }

  /** The window after a run of accepted chunks, starting from empty. */
  function WindowAfter<T>(chunks: seq<T>, capacity: nat): (w: seq<T>)
    requires 0 < capacity
    ensures |w| <= capacity
  {
    if chunks == [] then []
    else Slide(WindowAfter(chunks[..|chunks| - 1], capacity), chunks[|chunks| - 1], capacity)
  }

  /** The last `capacity` chunks of a run, or all of it when it is shorter. */
  function Latest<T>(chunks: seq<T>, capacity: nat): (w: seq<T>)
    requires 0 < capacity
  {
    if |chunks| <= capacity then chunks else chunks[|chunks| - capacity..]
  }

  /** Sliding a chunk into the latest `capacity` chunks of a run gives the latest of the run extended by it. */
  lemma SlideKeepsLatest<T>(front: seq<T>, last: T, capacity: nat)
    requires 0 < capacity
    ensures Slide(Latest(front, capacity), last, capacity) == Latest(front + [last], capacity)
  {
    var chunks := front + [last];
    if |front| >= capacity {
      var kept := Latest(front, capacity);
      assert kept == front[|front| - capacity..];
      assert Slide(kept, last, capacity) == kept[1..] + [last];
      assert kept[1..] + [last] == chunks[|chunks| - capacity..];
    } else {
      assert Slide(front, last, capacity) == chunks;
    }
  }

  /** The window always holds the most recent accepted chunks, `capacity` at most, in arrival order. */
  lemma {:induction false} WindowKeepsLatest<T>(chunks: seq<T>, capacity: nat)
    requires 0 < capacity
    ensures WindowAfter(chunks, capacity) == Latest(chunks, capacity)
    decreases |chunks|
  {
    if chunks != [] {
      var front, last := chunks[..|chunks| - 1], chunks[|chunks| - 1];
      WindowKeepsLatest(front, capacity);
      assert chunks == front + [last];
      SlideKeepsLatest(front, last, capacity);
    }
  }
}
