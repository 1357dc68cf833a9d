/** Keep-alive timeouts: a connection that has been idle for the whole timeout is reported
    once, and not before. */
module KeepAlive {
  import opened Io

  type PeerId = nat
  type ConnectionId = nat
  type Key = (PeerId, ConnectionId)

  /** A pending sleep for a key. */
  datatype Timer = Timer(key: Key, deadline: nat)

  class KeepAliveTracker {
    const timeout: nat
    var lastActivity: map<Key, nat>
    /** The pending timeouts, in no particular order. */
    var timers: seq<Timer>
    /** Connections that have been closed. */
    ghost var closed: set<Key>
    /** How often a poll had nothing to report. */
    ghost var quiet: nat

    ghost predicate Due(key: Key, now: nat)
      reads this
    {
      key in lastActivity && lastActivity[key] + timeout <= now
    }

    ghost predicate Valid(now: nat)
      reads this
    {
      Tracked(timeout, lastActivity, timers, closed, now)
    }

    constructor (timeout: nat)
      ensures Valid(0) && this.timeout == timeout && lastActivity == map[] && timers == [] && closed == {}
    {
      this.timeout := timeout;
      lastActivity, timers, closed, quiet := map[], [], {}, 0;
    }

    /** `substream_activity`, also called when a connection is established. */
    method SubstreamActivity(key: Key, now: nat)
      requires Valid(now)
      modifies this`lastActivity, this`timers
      ensures Valid(now) && lastActivity == old(lastActivity)[key := now]
      ensures timers == if key in old(lastActivity) then old(timers) else old(timers) + [Timer(key, now + timeout)]
    {
      var known := key in lastActivity;
      Refresh(timeout, lastActivity, timers, closed, now, key);
      lastActivity := lastActivity[key := now];
      if !known {
        AddTimer(timeout, lastActivity, timers, closed, now, Timer(key, now + timeout));
        timers := timers + [Timer(key, now + timeout)];
      }
    }

    /** `on_connection_closed` */
    method OnConnectionClosed(key: Key, now: nat)
      requires Valid(now)
      modifies this`lastActivity, this`closed
      ensures Valid(now) && lastActivity == old(lastActivity) - {key} && closed == old(closed) + {key}
    {
      CloseKey(timeout, lastActivity, timers, closed, now, key);
      lastActivity := lastActivity - {key};
      closed := closed + {key};
    }

    /** Some timer that has fired, looking from `start` on. */
    method FindFired(now: nat, start: nat) returns (i: Option<nat>)
      ensures i.Some? ==> i.value < |timers| && timers[i.value].deadline <= now
      ensures i.None? ==> Fired(timers, now) == 0
    {
      if start < |timers| && timers[start].deadline <= now {
        return Some(start);
      }
      for j := 0 to |timers|
        invariant forall k :: 0 <= k < j ==> now < timers[k].deadline
      {
        if timers[j].deadline <= now {
          return Some(j);
        }
      }
      NoneFired(timers, now);
      return None;
    }

    /** Timer `i` has fired: ignore it, set it again or report its key. */
    method Fire(i: nat, now: nat) returns (r: Option<Key>)
      requires Valid(now) && i < |timers| && timers[i].deadline <= now
      modifies this`lastActivity, this`timers
      ensures Valid(now) && Fired(timers, now) < old(Fired(timers, now))
      ensures r.Some? ==> r.value in old(lastActivity) && old(lastActivity)[r.value] + timeout <= now
      ensures lastActivity == if r.Some? then old(lastActivity) - {r.value} else old(lastActivity)
      ensures var key := old(timers)[i].key;
        && (r == if key in old(lastActivity) && old(lastActivity)[key] + timeout <= now then Some(key) else None)
        && timers == Remaining(old(timers), i) +
             if r.None? && key in lastActivity then [Timer(key, lastActivity[key] + timeout)] else []
    {
      var key := timers[i].key;
      FiredWithout(timers, i, now);
      TakeTimer(timeout, lastActivity, timers, closed, now, i);
      timers := Remaining(timers, i);
      r := Expire(key, now);
    }

    /** The only timer of a key has been taken. */
    method Expire(key: Key, now: nat) returns (r: Option<Key>)
      requires TrackedBut(timeout, lastActivity, timers, closed, now, {key})
      requires key in lastActivity ==> lastActivity[key] <= now
      modifies this`lastActivity, this`timers
      ensures Valid(now) && Fired(timers, now) == old(Fired(timers, now))
      ensures lastActivity == if r.Some? then old(lastActivity) - {r.value} else old(lastActivity)
      ensures r == if key in old(lastActivity) && old(lastActivity)[key] + timeout <= now then Some(key) else None
      ensures timers == old(timers) +
        if r.None? && key in lastActivity then [Timer(key, lastActivity[key] + timeout)] else []
    {
      ForgetKey(timeout, lastActivity, timers, closed, now, key);
      assert timers + [] == timers;
      if key !in lastActivity {
        // The connection has been closed.
        assert lastActivity - {key} == lastActivity;
        return None;
      }
      var inactiveFor := now - lastActivity[key];
      if inactiveFor < timeout {
        var again := Timer(key, now + (timeout - inactiveFor));
        FiredSnoc(timers, again, now);
        AddTimer(timeout, lastActivity, timers, closed, now, again);
        timers := timers + [again];
        return None;
      }
      lastActivity := lastActivity - {key};
      return Some(key);
    }

    /** `poll_next`: take some timer that has fired, `start` if it can be. A key is returned
        only when it has been idle for the whole timeout; `progress` says that a timer fired. */
    method PollNext(now: nat, start: nat) returns (r: Option<Key>, progress: bool)
      requires Valid(now)
      modifies this`lastActivity, this`timers, this`quiet
      ensures Valid(now) && quiet == old(quiet) + Tick(r.None?)
      ensures r.Some? ==> progress && r.value in old(lastActivity) && old(lastActivity)[r.value] + timeout <= now
      ensures lastActivity == if r.Some? then old(lastActivity) - {r.value} else old(lastActivity)
      ensures if progress then Fired(timers, now) < old(Fired(timers, now))
        else Fired(timers, now) == 0 && timers == old(timers)
    {
      var found := FindFired(now, start);
      r, progress := None, found.Some?;
      if progress {
        r := Fire(found.value, now);
      }
      quiet := quiet + Tick(r.None?);
    }

    /** Polling until nothing fires reports exactly the connections idle for the whole timeout. */
    method PollToQuiescence(now: nat) returns (expired: set<Key>)
      requires Valid(now)
      modifies this`lastActivity, this`timers, this`quiet
      ensures Valid(now) && Fired(timers, now) == 0
      ensures expired == set key | key in old(lastActivity) && old(lastActivity)[key] + timeout <= now
      ensures lastActivity == old(lastActivity) - expired
    {
      expired := {};
      var progress := true;
      // The set of timers yields those that have fired in any order.
      ghost var start := lastActivity;
      while progress
        invariant Valid(now) && (!progress ==> Fired(timers, now) == 0)
        invariant forall key :: key in expired ==> key in start && start[key] + timeout <= now
        invariant lastActivity == start - expired
        decreases progress, Fired(timers, now)
      {
        var r;
        var start: nat := *;
        r, progress := PollNext(now, start);
        if r.Some? {
          expired := expired + {r.value};
        }
      }
      QuietMeansFresh(now);
      assert forall key :: key in start && key !in expired ==> key in lastActivity && !Due(key, now);
    }

    lemma LaterIsValid(now: nat, later: nat)
      requires Valid(now) && now <= later
      ensures Valid(later)
    {
      assert Timed(0);
    }

    /** At quiescence no tracked connection has been idle for the whole timeout. */
    lemma QuietMeansFresh(now: nat)
      requires Valid(now) && Fired(timers, now) == 0
      ensures forall key :: key in lastActivity ==> !Due(key, now)
    {
      assert Timed(0);
      forall key | key in lastActivity
        ensures !Due(key, now)
      {
        assert HasTimer(timers, key, lastActivity[key] + timeout);
        var t :| t in timers && t.key == key && t.deadline <= lastActivity[key] + timeout;
        if t.deadline <= now {
          FiredCounts(timers, t, now);
        }
      }
    }
  }

  /** All timers but one. */
  function Remaining(timers: seq<Timer>, i: nat): seq<Timer>
    requires i < |timers|
  {
    timers[..i] + timers[i + 1..]
  }

  ghost predicate HasTimer(timers: seq<Timer>, key: Key, latest: nat) {
    exists t :: t in timers && t.key == key && t.deadline <= latest
  }

  /** Tracked connections have a timer that fires no later than the end of their idle period.
      Only connections that have been closed have a second timer, or one while not tracked. */
  ghost predicate Tracked(timeout: nat, lastActivity: map<Key, nat>, timers: seq<Timer>, closed: set<Key>, now: nat) {
    TrackedBut(timeout, lastActivity, timers, closed, now, {})
  }

  /** The same, except that the timers of some tracked connections have been taken. */
  ghost predicate TrackedBut(timeout: nat, lastActivity: map<Key, nat>, timers: seq<Timer>, closed: set<Key>,
      now: nat, taken: set<Key>) {
    forall i {:trigger Timed(i)} :: i == 0 && Timed(i) ==>
      && Distinct(timers, closed)
      && (forall key :: key in lastActivity ==> lastActivity[key] <= now)
      && (forall key :: key in lastActivity && key !in taken ==> HasTimer(timers, key, lastActivity[key] + timeout))
      && (forall t :: t in timers ==> t.key in closed || (t.key in lastActivity && t.key !in taken))
  }

  /** Mentioned where the timers matter one by one. */
  predicate Timed(i: int) {
    true
  }

  /** Activity of a connection that has a timer, or is about to get one. */
  lemma Refresh(timeout: nat, lastActivity: map<Key, nat>, timers: seq<Timer>, closed: set<Key>, now: nat, key: Key)
    requires Tracked(timeout, lastActivity, timers, closed, now)
    ensures TrackedBut(timeout, lastActivity[key := now], timers, closed, now,
                       if key in lastActivity then {} else {key})
  {
    assert Timed(0);
    var next, taken := lastActivity[key := now], if key in lastActivity then {} else {key};
    forall k | k in next && k !in taken
      ensures HasTimer(timers, k, next[k] + timeout)
    {
      assert HasTimer(timers, k, lastActivity[k] + timeout);
      var t :| t in timers && t.key == k && t.deadline <= lastActivity[k] + timeout;
      assert t in timers && t.deadline <= next[k] + timeout;
    }
  }

  lemma CloseKey(timeout: nat, lastActivity: map<Key, nat>, timers: seq<Timer>, closed: set<Key>, now: nat, key: Key)
    requires Tracked(timeout, lastActivity, timers, closed, now)
    ensures Tracked(timeout, lastActivity - {key}, timers, closed + {key}, now)
  {
    assert Timed(0);
  }

  lemma TakeTimer(timeout: nat, lastActivity: map<Key, nat>, timers: seq<Timer>, closed: set<Key>, now: nat, i: nat)
    requires Tracked(timeout, lastActivity, timers, closed, now) && i < |timers|
    ensures TrackedBut(timeout, lastActivity, Remaining(timers, i), closed, now, {timers[i].key})
    ensures timers[i].key in lastActivity ==> lastActivity[timers[i].key] <= now
  {
    assert Timed(0);
    var rest := Remaining(timers, i);
    Without(timers, closed, i);
    forall key | key in lastActivity && key != timers[i].key
      ensures HasTimer(rest, key, lastActivity[key] + timeout)
    {
      assert HasTimer(timers, key, lastActivity[key] + timeout);
      var t :| t in timers && t.key == key && t.deadline <= lastActivity[key] + timeout;
      assert t in rest;
    }
  }

  lemma AddTimer(timeout: nat, lastActivity: map<Key, nat>, timers: seq<Timer>, closed: set<Key>, now: nat, t: Timer)
    requires TrackedBut(timeout, lastActivity, timers, closed, now, {t.key})
    requires t.key in lastActivity && t.deadline <= lastActivity[t.key] + timeout
    ensures Tracked(timeout, lastActivity, timers + [t], closed, now)
  {
    assert Timed(0);
    var all := timers + [t];
    assert t in all;
    forall key | key in lastActivity
      ensures HasTimer(all, key, lastActivity[key] + timeout)
    {
      if key != t.key {
        assert HasTimer(timers, key, lastActivity[key] + timeout);
        var u :| u in timers && u.key == key && u.deadline <= lastActivity[key] + timeout;
        assert u in all;
      }
    }
  }

  lemma ForgetKey(timeout: nat, lastActivity: map<Key, nat>, timers: seq<Timer>, closed: set<Key>, now: nat, key: Key)
    requires TrackedBut(timeout, lastActivity, timers, closed, now, {key})
    ensures Tracked(timeout, lastActivity - {key}, timers, closed, now)
  {
    assert Timed(0);
  }

  /** No connection has two timers, unless it has been closed. */
  ghost predicate Distinct(timers: seq<Timer>, closed: set<Key>) {
    forall i, j :: 0 <= i < j < |timers| && timers[i].key == timers[j].key ==> timers[i].key in closed
  }

  lemma Without(timers: seq<Timer>, closed: set<Key>, i: nat)
    requires Distinct(timers, closed) && i < |timers|
    ensures var rest := Remaining(timers, i);
            && Distinct(rest, closed)
            && (forall t :: t in timers && t.key != timers[i].key ==> t in rest)
            && (forall t :: t in rest ==> t in timers && (t.key != timers[i].key || t.key in closed))
  {
    var rest := Remaining(timers, i);
    forall t | t in timers && t.key != timers[i].key
      ensures t in rest
    {
      var j :| 0 <= j < |timers| && timers[j] == t;
      assert t == rest[if j < i then j else j - 1];
    }
  }

  /** How many timers have fired. */
  ghost function Fired(timers: seq<Timer>, now: nat): nat {
    if timers == [] then 0
    else Fired(timers[..|timers| - 1], now) + (if timers[|timers| - 1].deadline <= now then 1 else 0)
  }

  lemma FiredSnoc(timers: seq<Timer>, t: Timer, now: nat)
    ensures Fired(timers + [t], now) == Fired(timers, now) + (if t.deadline <= now then 1 else 0)
  {
    assert (timers + [t])[..|timers|] == timers;
  }

  lemma {:induction false} FiredWithout(timers: seq<Timer>, i: nat, now: nat)
    requires i < |timers| && timers[i].deadline <= now
    ensures Fired(Remaining(timers, i), now) == Fired(timers, now) - 1
  {
    var k := |timers| - 1;
    if i == k {
      assert timers[..i] + timers[i + 1..] == timers[..k];
    } else {
      FiredWithout(timers[..k], i, now);
      assert timers[..i] + timers[i + 1..] == (timers[..k][..i] + timers[..k][i + 1..]) + [timers[k]];
      FiredSnoc(timers[..k][..i] + timers[..k][i + 1..], timers[k], now);
    }
  }

  lemma {:induction false} NoneFired(timers: seq<Timer>, now: nat)
    requires forall i :: 0 <= i < |timers| ==> now < timers[i].deadline
    ensures Fired(timers, now) == 0
  {
    if timers != [] {
      NoneFired(timers[..|timers| - 1], now);
    }
  }

  lemma {:induction false} FiredCounts(timers: seq<Timer>, t: Timer, now: nat)
    requires t in timers && t.deadline <= now
    ensures 0 < Fired(timers, now)
  {
    var k := |timers| - 1;
    if t != timers[k] {
      FiredCounts(timers[..k], t, now);
    }
  }

  /** Activity after a close: the timer that the close left is still pending, and a second one is set. */
  method ActivityAfterClose(timeout: nat, key: Key) returns (timers: seq<Timer>)
    ensures timers == [Timer(key, timeout), Timer(key, timeout)]
  {
    var tracker := new KeepAliveTracker(timeout);
    tracker.SubstreamActivity(key, 0);
    tracker.OnConnectionClosed(key, 0);
    tracker.SubstreamActivity(key, 0);
    return tracker.timers;
  }
}
