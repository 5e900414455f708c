/**
 Operations hashed onto lanes, each lane first-in first-out: what this keeps per object.
 Shared by the server's dispatch queues and the proxy's worker queues.
 */
module Lanes {

  /** The elements satisfying f, in order. */
  function Filter<T>(f: T -> bool, q: seq<T>): (r: seq<T>)
    ensures |r| <= |q|
    ensures forall x :: x in r ==> x in q && f(x)
  {
    if q == [] then [] else (if f(q[0]) then [q[0]] else []) + Filter(f, q[1..])
  }

  lemma {:induction false} FilterConcat<T>(f: T -> bool, p: seq<T>, q: seq<T>)
    ensures Filter(f, p + q) == Filter(f, p) + Filter(f, q)
  {
    if p == [] {
      assert p + q == q;
    } else {
      assert (p + q)[1..] == p[1..] + q;
      FilterConcat(f, p[1..], q);
    }
  }

  lemma FilterLast<T>(f: T -> bool, q: seq<T>, x: T)
    ensures Filter(f, q + [x]) == if f(x) then Filter(f, q) + [x] else Filter(f, q)
  {
    FilterConcat(f, q, [x]);
    assert Filter(f, [x]) == if f(x) then [x] else [];
  }

  /** Filtering by lane first does not disturb what is selected inside the lane. */
  lemma {:induction false} FilterInside<T>(f: T -> bool, g: T -> bool, q: seq<T>)
    requires forall x :: x in q && g(x) ==> f(x)
    ensures Filter(g, Filter(f, q)) == Filter(g, q)
  {
    if q != [] {
      FilterInside(f, g, q[1..]);
      FilterConcat(g, if f(q[0]) then [q[0]] else [], Filter(f, q[1..]));
    }
  }

  /** If a lane's arrivals are what it handled followed by what is pending, then for every
      object of the lane the handled operations are a prefix of the object's arrivals. */
  lemma ObjectOrder<T>(lane: T -> bool, object_: T -> bool, arrivals: seq<T>, handled: seq<T>, pending: seq<T>)
    requires Filter(lane, arrivals) == handled + pending
    requires forall x :: x in arrivals && object_(x) ==> lane(x)
    ensures Filter(object_, handled) <= Filter(object_, arrivals)
    ensures Filter(object_, arrivals) == Filter(object_, handled) + Filter(object_, pending)
  {
    FilterInside(lane, object_, arrivals);
    FilterConcat(object_, handled, pending);
  }
}
