/** What the change events say, read back without the detector: device joins and leaves, address
    changes and service flips, each against the whole history of observations. */
module Changes {
  import opened Text
  import opened Bus

  // ---------------------------------------------------------------- devices

  const DEVICES: set<Kind> := {DeviceJoin, DeviceLeave}

  /** The device an event is about. */
  function Key(e: Event): string {
    if e.payload.DevicePayload? then Lower(e.payload.mac) else ""
  }

  /** Replaying joins and leaves. */
  function Replay(es: seq<Event>): set<string> {
    if es == [] then {}
    else
      var rest, e := Replay(es[..|es| - 1]), es[|es| - 1];
      if e.kind == DeviceJoin then rest + {Key(e)} else rest - {Key(e)}
  }

  /** Only the absent join and only the present leave. */
  ghost predicate Consistent(es: seq<Event>) {
    es == [] ||
    var rest, e := es[..|es| - 1], es[|es| - 1];
    Consistent(rest) && e.kind in DEVICES && (e.kind == DeviceJoin <==> Key(e) !in Replay(rest))
  }

  lemma OneEvent(es: seq<Event>, e: Event)
    requires Consistent(es) && e.kind in DEVICES && (e.kind == DeviceJoin <==> Key(e) !in Replay(es))
    ensures Consistent(es + [e])
    ensures Replay(es + [e]) == if e.kind == DeviceJoin then Replay(es) + {Key(e)} else Replay(es) - {Key(e)}
  {
    assert (es + [e])[..|es|] == es;
  }

  function Joins(es: seq<Event>, mac: string): nat {
    if es == [] then 0
    else
      var e := es[|es| - 1];
      Joins(es[..|es| - 1], mac) + if e.kind == DeviceJoin && Key(e) == mac then 1 else 0
  }

  function Leaves(es: seq<Event>, mac: string): nat {
    if es == [] then 0
    else
      var e := es[|es| - 1];
      Leaves(es[..|es| - 1], mac) + if e.kind == DeviceLeave && Key(e) == mac then 1 else 0
  }

  /** Joins minus leaves is 1 for the present and 0 for the absent. */
  lemma {:induction false} Balance(es: seq<Event>, mac: string)
    requires Consistent(es)
    ensures Joins(es, mac) == Leaves(es, mac) + if mac in Replay(es) then 1 else 0
    decreases |es|
  {
    if es != [] { Balance(es[..|es| - 1], mac); }
  }

  ghost predicate About(es: seq<Event>, i: nat, mac: string) {
    i < |es| && Key(es[i]) == mac
  }

  /** Presence is what the last event about the device said. */
  lemma {:induction false} LastWord(es: seq<Event>, i: nat, n: nat, mac: string)
    requires i < n <= |es| && Consistent(es[..n]) && About(es, i, mac)
    requires forall k :: i < k < n ==> !About(es, k, mac)
    ensures mac in Replay(es[..n]) <==> es[i].kind == DeviceJoin
    decreases n
  {
    assert es[..n][..n - 1] == es[..n - 1];
    if i < n - 1 {
      assert !About(es, n - 1, mac);
      LastWord(es, i, n - 1, mac);
    }
  }

  lemma {:induction false} ConsistentPrefix(es: seq<Event>, n: nat)
    requires Consistent(es) && n <= |es|
    ensures Consistent(es[..n])
    decreases |es|
  {
    if n == |es| { assert es[..n] == es; }
    else {
      ConsistentPrefix(es[..|es| - 1], n);
      assert es[..|es| - 1][..n] == es[..n];
    }
  }

  lemma {:induction false} NoWordNoPresence(es: seq<Event>, n: nat, mac: string)
    requires n <= |es| && Consistent(es[..n]) && forall k :: 0 <= k < n ==> !About(es, k, mac)
    ensures mac !in Replay(es[..n])
    decreases n
  {
    if n > 0 {
      assert es[..n][..n - 1] == es[..n - 1];
      assert !About(es, n - 1, mac);
      NoWordNoPresence(es, n - 1, mac);
    }
  }

  /** For each device joins and leaves strictly alternate, and the first event is a join. */
  lemma Alternate(es: seq<Event>, j: nat, mac: string)
    requires Consistent(es) && About(es, j, mac)
    ensures (forall k :: 0 <= k < j ==> !About(es, k, mac)) ==> es[j].kind == DeviceJoin
    ensures forall i :: 0 <= i < j && About(es, i, mac) && (forall k :: i < k < j ==> !About(es, k, mac)) ==>
              es[i].kind != es[j].kind
  {
    ConsistentPrefix(es, j + 1);
    ConsistentPrefix(es, j);
    assert es[..j + 1][..j] == es[..j];
    if forall k :: 0 <= k < j ==> !About(es, k, mac) { NoWordNoPresence(es, j, mac); }
    forall i | 0 <= i < j && About(es, i, mac) && (forall k :: i < k < j ==> !About(es, k, mac))
      ensures es[i].kind != es[j].kind
    {
      LastWord(es, i, j, mac);
    }
  }

  // ---------------------------------------------------------------- addresses

  /** The changes announced over the first n addresses seen on an interface: none is announced from an
      empty address. */
  function Moves(seen: seq<string>, n: nat): seq<(string, string)>
    requires n <= |seen|
  {
    if n <= 1 then []
    else
      var rest, old_, new_ := Moves(seen, n - 1), seen[n - 2], seen[n - 1];
      if old_ != "" && old_ != new_ then rest + [(old_, new_)] else rest
  }

  lemma {:induction false} MovesPrefix(seen: seq<string>, x: string, n: nat)
    requires n <= |seen|
    ensures Moves(seen + [x], n) == Moves(seen, n)
    decreases n
  {
    if n > 1 { MovesPrefix(seen, x, n - 1); }
  }

  lemma MovesOne(seen: seq<string>, x: string)
    ensures Moves(seen + [x], |seen + [x]|) ==
            if seen != [] && seen[|seen| - 1] != "" && seen[|seen| - 1] != x
            then Moves(seen, |seen|) + [(seen[|seen| - 1], x)] else Moves(seen, |seen|)
  {
    MovesPrefix(seen, x, |seen|);
    var n := |seen| + 1;
    assert Moves(seen + [x], n - 1) == Moves(seen, n - 1);
    if n > 1 { assert (seen + [x])[n - 2] == seen[n - 2] && (seen + [x])[n - 1] == x; }
  }

  /** The address one arrives at by following the announcements from the first address. */
  function Follow(first: string, moves: seq<(string, string)>): string {
    if moves == [] then first else moves[|moves| - 1].1
  }

  /** Each announcement is a change, and starts where the one before ended. */
  ghost predicate Chained(first: string, moves: seq<(string, string)>) {
    moves == [] ||
    var rest, last := moves[..|moves| - 1], moves[|moves| - 1];
    Chained(first, rest) && last.0 == Follow(first, rest) && last.0 != last.1
  }

  /** Written out for each announcement. */
  lemma {:induction false} ChainedAt(first: string, moves: seq<(string, string)>, i: nat)
    requires Chained(first, moves) && i < |moves|
    ensures moves[i].0 != moves[i].1 && moves[i].0 == if i == 0 then first else moves[i - 1].1
    decreases |moves|
  {
    if i < |moves| - 1 { ChainedAt(first, moves[..|moves| - 1], i); }
  }

  /** Nothing appears after an empty one. */
  ghost predicate NeverReturns(seen: seq<string>, n: nat)
    requires n <= |seen|
  {
    forall i :: 0 < i < n && seen[i - 1] == "" ==> seen[i] == ""
  }

  lemma {:induction false} MovesChain(seen: seq<string>, n: nat)
    requires 0 < n <= |seen| && NeverReturns(seen, n)
    ensures Chained(seen[0], Moves(seen, n)) && Follow(seen[0], Moves(seen, n)) == seen[n - 1]
    decreases n
  {
    if n > 1 {
      MovesChain(seen, n - 1);
      var rest, old_, new_ := Moves(seen, n - 1), seen[n - 2], seen[n - 1];
      if old_ != "" && old_ != new_ {
        ChainOne(seen[0], rest, old_, new_);
      }
    }
  }

  lemma ChainOne(first: string, moves: seq<(string, string)>, old_: string, new_: string)
    requires Chained(first, moves) && Follow(first, moves) == old_ && old_ != new_
    ensures Chained(first, moves + [(old_, new_)])
  {
    assert (moves + [(old_, new_)])[..|moves|] == moves;
  }

  /** After n addresses the announcements lead to the last of them. */
  ghost predicate LeadsTo(seen: seq<string>, n: nat)
    requires 0 < n <= |seen|
  {
    Follow(seen[0], Moves(seen, n)) == seen[n - 1]
  }

  /** The rule taken by itself, for any strings: the announcements always lead to the current one exactly
      when none follows an empty one. Addresses are never empty, so of them they always do. */
  lemma FollowIff(seen: seq<string>)
    requires seen != []
    ensures (forall n: nat :: 0 < n <= |seen| ==> LeadsTo(seen, n)) <==> NeverReturns(seen, |seen|)
  {
    if NeverReturns(seen, |seen|) {
      forall n: nat | 0 < n <= |seen| ensures LeadsTo(seen, n) {
        MovesChain(seen, n);
      }
    } else {
      var i: nat :| 0 < i < |seen| && seen[i - 1] == "" && seen[i] != "";
      assert Moves(seen, i + 1) == Moves(seen, i);
      assert !LeadsTo(seen, i) || !LeadsTo(seen, i + 1);
    }
  }

  /** The changes an event list announces for one interface. */
  function MovesOf(es: seq<Event>, iface: string): seq<(string, string)> {
    if es == [] then []
    else
      var rest, e := MovesOf(es[..|es| - 1], iface), es[|es| - 1];
      if e.payload.WANIPPayload? && e.payload.iface == iface then rest + [(e.payload.oldIP, e.payload.newIP)] else rest
  }

  lemma MovesOfOne(es: seq<Event>, e: Event, iface: string)
    ensures MovesOf(es + [e], iface) ==
            if e.payload.WANIPPayload? && e.payload.iface == iface
            then MovesOf(es, iface) + [(e.payload.oldIP, e.payload.newIP)] else MovesOf(es, iface)
  {
    assert (es + [e])[..|es|] == es;
  }

  // ---------------------------------------------------------------- services

  /** The states announced over the first n checks of a service: each change, none for the first check. */
  function Flips(states: seq<bool>, n: nat): seq<bool>
    requires n <= |states|
  {
    if n <= 1 then []
    else if states[n - 1] != states[n - 2] then Flips(states, n - 1) + [states[n - 1]]
    else Flips(states, n - 1)
  }

  lemma {:induction false} FlipsPrefix(states: seq<bool>, x: bool, n: nat)
    requires n <= |states|
    ensures Flips(states + [x], n) == Flips(states, n)
    decreases n
  {
    if n > 1 { FlipsPrefix(states, x, n - 1); }
  }

  lemma FlipsOne(states: seq<bool>, x: bool)
    ensures Flips(states + [x], |states + [x]|) ==
            if states != [] && states[|states| - 1] != x then Flips(states, |states|) + [x] else Flips(states, |states|)
  {
    FlipsPrefix(states, x, |states|);
    var n := |states| + 1;
    assert Flips(states + [x], n - 1) == Flips(states, n - 1);
    if n > 1 { assert (states + [x])[n - 2] == states[n - 2] && (states + [x])[n - 1] == x; }
  }

  /** Up and down strictly alternate, starting away from the first state seen, and the last announcement
      is the current state. */
  lemma {:induction false} FlipsAlternate(states: seq<bool>, n: nat)
    requires 0 < n <= |states|
    ensures var flips := Flips(states, n);
            && (forall i :: 0 <= i < |flips| ==> flips[i] == if i % 2 == 0 then !states[0] else states[0])
            && states[n - 1] == if |flips| == 0 then states[0] else flips[|flips| - 1]
    decreases n
  {
    if n > 1 { FlipsAlternate(states, n - 1); }
  }

  function FlipsOf(es: seq<Event>, service: string): seq<bool> {
    if es == [] then []
    else
      var rest, e := FlipsOf(es[..|es| - 1], service), es[|es| - 1];
      if e.payload == ServicePayload(service) then rest + [e.kind == ServiceUp] else rest
  }

  lemma FlipsOfOne(es: seq<Event>, e: Event, service: string)
    ensures FlipsOf(es + [e], service) ==
            if e.payload == ServicePayload(service) then FlipsOf(es, service) + [e.kind == ServiceUp]
            else FlipsOf(es, service)
  {
    assert (es + [e])[..|es|] == es;
  }
}
