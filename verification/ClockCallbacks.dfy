/** Clocks and the linked lists of callbacks run before and after a rate change (metal/clock.h). */
module ClockCallbacks {

  /** A node of a callback list. What the callback does is outside the list: running one is an event. */
  class Callback {
    var next: Callback?

    constructor ()
      ensures next == null
    {
      next := null;
    }
  }

  datatype Event = Called(cb: Callback) | RateSet(hz: int)

  ghost predicate Distinct(nodes: seq<Callback>) {
    forall i, j :: 0 <= i < j < |nodes| ==> nodes[i] != nodes[j]
  }

  /** `head` starts a null-terminated chain of exactly these nodes, none twice. */
  ghost predicate Chain(head: Callback?, nodes: seq<Callback>)
    reads nodes
  {
    && Distinct(nodes)
    && (nodes == [] ==> head == null)
    && (nodes != [] ==> head == nodes[0] && nodes[|nodes| - 1].next == null)
    && forall i :: 0 <= i < |nodes| - 1 ==> nodes[i].next == nodes[i + 1]
  }

  ghost function Calls(nodes: seq<Callback>): seq<Event> {
    seq(|nodes|, i requires 0 <= i < |nodes| => Called(nodes[i]))
  }

  /** Appending a new callback makes a chain one longer; appending one that is already there cuts the list
      after it and closes a loop on it. */
  method AppendToCallbacks(list: Callback?, cb: Callback, ghost nodes: seq<Callback>) returns (head: Callback?)
    requires Chain(list, nodes)
    modifies cb, nodes
    ensures cb !in nodes ==> Chain(head, nodes + [cb])
    ensures cb in nodes ==> head == list && cb.next == cb
    ensures forall n :: n in nodes && n != cb && old(n.next) != null ==> n.next == old(n.next)
  {
    cb.next := null;
    if list == null {
      return cb;
    }
    var current: Callback := list;
    ghost var i := 0;
    while current.next != null
      invariant 0 <= i < |nodes| && current == nodes[i] && cb !in nodes[..i] && cb.next == null
      invariant forall k :: 0 <= k < |nodes| && nodes[k] != cb ==> nodes[k].next == old(nodes[k].next)
      decreases |nodes| - i
    {
      current := current.next;
      i := i + 1;
    }
    assert i < |nodes| - 1 ==> nodes[i] == cb by {
      assert i < |nodes| - 1 ==> old(nodes[i].next) == nodes[i + 1];
    }
    assert cb in nodes ==> nodes[i] == cb by {
      assert i == |nodes| - 1 ==> nodes == nodes[..i] + [nodes[i]];
    }
    current.next := cb;
    head := list;
    forall k | 0 <= k < |nodes| && cb !in nodes
      ensures nodes[k].next == (nodes + [cb])[k + 1]
    {
      assert k < |nodes| - 1 ==> old(nodes[k].next) == nodes[k + 1];
    }
  }

  class Clock {
    var rate: int
    var preCallback: Callback?
    var postCallback: Callback?
    var log: seq<Event>
    ghost var pre: seq<Callback>
    ghost var post: seq<Callback>

    ghost predicate Valid()
      reads this, pre, post
    {
      Chain(preCallback, pre) && Chain(postCallback, post) && forall n :: n in pre ==> n !in post
    }

    constructor (rate: int)
      ensures Valid() && pre == [] && post == [] && log == [] && this.rate == rate
    {
      this.rate := rate;
      preCallback, postCallback, log := null, null, [];
      pre, post := [], [];
    }

    /** Runs every callback of a list, in order. */
    method CallAll(list: Callback?, ghost nodes: seq<Callback>)
      requires Chain(list, nodes)
      modifies this`log
      ensures log == old(log) + Calls(nodes)
    {
      var current := list;
      ghost var i := 0;
      while current != null
        invariant 0 <= i <= |nodes| && current == (if i < |nodes| then nodes[i] else null)
        invariant log == old(log) + Calls(nodes[..i])
        decreases |nodes| - i
      {
        log := log + [Called(current)];
        current := current.next;
        i := i + 1;
        assert Calls(nodes[..i]) == Calls(nodes[..i - 1]) + [Called(nodes[i - 1])];
      }
      assert nodes[..i] == nodes;
    }

    /** The lists stay as they should be exactly when the callback is on neither. One that is already on this
        list makes it a loop without end. */
    method RegisterPre(cb: Callback)
      requires Chain(preCallback, pre)
      modifies this`preCallback, this`pre, pre, cb
      ensures pre == old(pre) + [cb] && (cb !in old(pre) ==> Chain(preCallback, pre))
      ensures old(Valid()) ==> (Valid() <==> cb !in old(pre) && cb !in post)
      ensures old(Valid()) && cb !in post ==> Chain(postCallback, post)
      ensures cb in old(pre) ==> cb.next == cb && preCallback == old(preCallback)
    {
      preCallback := AppendToCallbacks(preCallback, cb, pre);
      forall i | 0 <= i < |post| && old(Valid()) && post[i] != cb
        ensures post[i].next == old(post[i].next)
      {
        assert post[i] in post;
      }
      pre := pre + [cb];
      assert cb in old(pre) ==> !Distinct(pre) by {
        if cb in old(pre) {
          var i :| 0 <= i < |old(pre)| && old(pre)[i] == cb;
          assert pre[i] == pre[|pre| - 1];
        }
      }
      assert cb in pre;
    }

    /** The lists stay as they should be exactly when the callback is on neither. One that is already on this
        list makes it a loop without end. */
    method RegisterPost(cb: Callback)
      requires Chain(postCallback, post)
      modifies this`postCallback, this`post, post, cb
      ensures post == old(post) + [cb] && (cb !in old(post) ==> Chain(postCallback, post))
      ensures old(Valid()) ==> (Valid() <==> cb !in old(post) && cb !in pre)
      ensures old(Valid()) && cb !in pre ==> Chain(preCallback, pre)
      ensures cb in old(post) ==> cb.next == cb && postCallback == old(postCallback)
    {
      postCallback := AppendToCallbacks(postCallback, cb, post);
      forall i | 0 <= i < |pre| && old(Valid()) && pre[i] != cb
        ensures pre[i].next == old(pre[i].next)
      {
        assert pre[i] in pre;
      }
      post := post + [cb];
      assert cb in old(post) ==> !Distinct(post) by {
        if cb in old(post) {
          var i :| 0 <= i < |old(post)| && old(post)[i] == cb;
          assert post[i] == post[|post| - 1];
        }
      }
      assert cb in post;
    }

    /** The driver's own rate change; it may settle on any rate. */
    method DriverSetRate(hz: int) returns (out: int)
      modifies this`rate, this`log
      ensures rate == out && log == old(log) + [RateSet(out)]
    {
      out := *;
      rate := out;
      log := log + [RateSet(out)];
    }

    method SetRateHz(hz: int) returns (out: int)
      requires Valid()
      modifies this`rate, this`log
      ensures Valid() && rate == out
      ensures log == old(log) + Calls(pre) + [RateSet(out)] + Calls(post)
    {
      CallAll(preCallback, pre);
      out := DriverSetRate(hz);
      CallAll(postCallback, post);
    }
  }
}
