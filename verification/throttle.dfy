/**
 * The leading-edge `throttle` helper of frontend/app.js. Time is abstracted
 * into events: a `Call` is an invocation of the throttled function, and
 * `Expire` is the moment the pending timer clears the waiting flag. The
 * stretch between two expiries is a window; at most the first call of each
 * window reaches the callback.
 */
module Throttle {
  import opened Seqs

  datatype Event<T> = Call(arg: T) | Expire

  predicate IsExpire<T>(e: Event<T>) {
    e.Expire?
  }

  /** One event against the waiting flag: the new flag and what reached the callback. */
  function Step<T>(waiting: bool, e: Event<T>): (bool, seq<T>) {
    match e
    case Call(a) => if waiting then (true, []) else (true, [a])
    case Expire => (false, [])
  }

  /** The waiting flag after `events`, and the arguments the callback saw, in order. */
  function Run<T>(waiting: bool, events: seq<Event<T>>): (r: (bool, seq<T>))
    ensures |r.1| <= |events|
    ensures forall x :: x in r.1 ==> Call(x) in events
    decreases |events|
  {
    if events == [] then (waiting, [])
    else
      var (w, out) := Step(waiting, events[0]);
      var rest := Run(w, events[1..]);
      assert forall x :: x in rest.1 ==> Call(x) in events by {
        forall x | x in rest.1 ensures Call(x) in events {
          assert Call(x) in events[1..];
        }
      }
      (rest.0, out + rest.1)
  }

  /** The first call of a window, if it has one. */
  function FirstCallOf<T>(window: seq<Event<T>>): (r: seq<T>)
    ensures |r| <= 1
    ensures r != [] ==> Call(r[0]) in window
    ensures (exists e :: e in window && e.Call?) <==> r != []
  {
    if window == [] then []
    else if window[0].Call? then [window[0].arg]
    else
      var r := FirstCallOf(window[1..]);
      assert forall e :: e in window[1..] ==> e in window;
      assert (exists e :: e in window && e.Call?) ==> exists e :: e in window[1..] && e.Call? by {
        if exists e :: e in window && e.Call? {
          var e :| e in window && e.Call?;
          assert e != window[0];
          assert e in window[1..];
        }
      }
      r
  }

  /** Reference behaviour: the first call of every window, concatenated. */
  function FirstCalls<T>(windows: seq<seq<Event<T>>>): seq<T> {
    if windows == [] then [] else FirstCallOf(windows[0]) + FirstCalls(windows[1..])
  }

  /**
   * What a throttle that starts with flag `waiting` delivers for these
   * windows: the first window loses its leading call when a timer is already
   * pending; every later window opens with the flag cleared.
   */
  function Delivered<T>(waiting: bool, windows: seq<seq<Event<T>>>): seq<T>
    requires windows != []
  {
    (if waiting then [] else FirstCallOf(windows[0])) + FirstCalls(windows[1..])
  }

  lemma RunCons<T>(waiting: bool, e: Event<T>, rest: seq<Event<T>>)
    ensures var (w, out) := Step(waiting, e);
      Run(waiting, [e] + rest) == (Run(w, rest).0, out + Run(w, rest).1)
  {
    assert ([e] + rest)[0] == e;
    assert ([e] + rest)[1..] == rest;
  }

  lemma SplitCons<T>(e: Event<T>, rest: seq<Event<T>>)
    ensures var windows := Split(rest, IsExpire);
      Split([e] + rest, IsExpire) ==
        if e.Expire? then [[]] + windows else [[e] + windows[0]] + windows[1..]
  {
    assert ([e] + rest)[0] == e;
    assert ([e] + rest)[1..] == rest;
  }

  /** The throttle delivers exactly the first call of every window between expiries. */
  lemma {:induction false} RunDeliversFirstCalls<T>(waiting: bool, events: seq<Event<T>>)
    ensures Run(waiting, events).1 == Delivered(waiting, Split(events, IsExpire))
    decreases |events|
  {
    if events != [] {
      var e, rest := events[0], events[1..];
      assert events == [e] + rest;
      RunDeliversFirstCalls(Step(waiting, e).0, rest);
      DeliversStep(waiting, e, rest);
    }
  }

  /** One event in front of a run whose deliveries are already characterised. */
  lemma DeliversStep<T>(waiting: bool, e: Event<T>, rest: seq<Event<T>>)
    requires Run(Step(waiting, e).0, rest).1 == Delivered(Step(waiting, e).0, Split(rest, IsExpire))
    ensures Run(waiting, [e] + rest).1 == Delivered(waiting, Split([e] + rest, IsExpire))
  {
    RunCons(waiting, e, rest);
    SplitCons(e, rest);
    if e.Call? {
      DeliversCall(waiting, e, Split(rest, IsExpire));
    }
  }

  /** A call joins the first window; it is delivered exactly when nothing was pending. */
  lemma DeliversCall<T>(waiting: bool, e: Event<T>, windows: seq<seq<Event<T>>>)
    requires e.Call? && windows != []
    ensures Delivered(waiting, [[e] + windows[0]] + windows[1..]) == (if waiting then [] else [e.arg]) + Delivered(true, windows)
  {
    assert FirstCallOf([e] + windows[0]) == [e.arg];
    assert ([[e] + windows[0]] + windows[1..])[1..] == windows[1..];
  }

  /** A throttle that is not waiting delivers the first call of each window. */
  lemma RunFromIdle<T>(events: seq<Event<T>>)
    ensures Run(false, events).1 == FirstCalls(Split(events, IsExpire))
  {
    RunDeliversFirstCalls(false, events);
  }

  lemma {:induction false} FirstCallsBound<T>(windows: seq<seq<Event<T>>>)
    ensures |FirstCalls(windows)| <= |windows|
  {
    if windows != [] {
      FirstCallsBound(windows[1..]);
    }
  }

  /** However many calls arrive, the callback runs at most once per timer period, plus once. */
  lemma AtMostOncePerWindow<T>(waiting: bool, events: seq<Event<T>>)
    ensures |Run(waiting, events).1| <= |Filter(IsExpire, events)| + 1
  {
    RunDeliversFirstCalls(waiting, events);
    var windows := Split(events, IsExpire);
    FirstCallsBound(windows[1..]);
  }

  /** The last window holds a call. */
  ghost predicate EndsWithCall<T>(windows: seq<seq<Event<T>>>) {
    windows != [] && exists e :: e in windows[|windows| - 1] && e.Call?
  }

  /** The flag is set at the end exactly when the last window holds a call, or a timer from before is still pending. */
  lemma {:induction false} RunFinalFlag<T>(waiting: bool, events: seq<Event<T>>)
    ensures Run(waiting, events).0 <==>
      EndsWithCall(Split(events, IsExpire)) || (waiting && |Split(events, IsExpire)| == 1)
    decreases |events|
  {
    if events != [] {
      var e, rest := events[0], events[1..];
      assert events == [e] + rest;
      RunFinalFlag(Step(waiting, e).0, rest);
      FlagStep(waiting, e, rest);
    }
  }

  lemma FlagStep<T>(waiting: bool, e: Event<T>, rest: seq<Event<T>>)
    requires var w := Step(waiting, e).0;
      Run(w, rest).0 <==> EndsWithCall(Split(rest, IsExpire)) || (w && |Split(rest, IsExpire)| == 1)
    ensures Run(waiting, [e] + rest).0 <==>
      EndsWithCall(Split([e] + rest, IsExpire)) || (waiting && |Split([e] + rest, IsExpire)| == 1)
  {
    RunCons(waiting, e, rest);
    SplitCons(e, rest);
    var windows := Split(rest, IsExpire);
    if e.Call? {
      CallExtendsFirstWindow(e, windows);
    } else {
      ExpireOpensWindow(windows);
    }
  }

  /** A call in front joins the first window, which then holds a call. */
  lemma CallExtendsFirstWindow<T>(e: Event<T>, windows: seq<seq<Event<T>>>)
    requires e.Call? && windows != []
    ensures var all := [[e] + windows[0]] + windows[1..];
      |all| == |windows| && (EndsWithCall(all) <==> EndsWithCall(windows) || |windows| == 1)
  {
    var all := [[e] + windows[0]] + windows[1..];
    if |windows| == 1 {
      assert all[0] == [e] + windows[0];
      assert e in all[|all| - 1];
      assert EndsWithCall(windows) ==> EndsWithCall(all);
    } else {
      assert all[|all| - 1] == windows[|windows| - 1];
    }
  }

  /** An expiry in front opens an empty window and leaves the last one alone. */
  lemma ExpireOpensWindow<T>(windows: seq<seq<Event<T>>>)
    requires windows != []
    ensures var all := [[]] + windows;
      |all| == |windows| + 1 && (EndsWithCall(all) <==> EndsWithCall(windows))
  {
    var all := [[]] + windows;
    assert all[|all| - 1] == windows[|windows| - 1];
  }

  /** A burst of two calls within one period: the second call is dropped and never replayed. */
  lemma TrailingCallDropped()
    ensures Run(false, [Call(1), Call(2)]).1 == [1]
    ensures Run(false, [Call(1), Call(2), Expire]).1 == [1]
  {
  }
}
