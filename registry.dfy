/** The roster of players of the shared game state: names kept in insertion
    order, each with a `connected` flag. */
module PlayerRegistry {

  /** The roster as a value: `order` is the insertion order of the names and
      `connected` maps each name to its connected flag. */
  datatype Players = Players(order: seq<string>, connected: map<string, bool>)

  /** The empty roster, as the game state starts and as a total reset leaves it. */
  const Empty: Players := Players([], map[])

  predicate Distinct(s: seq<string>) {
    forall i, j :: 0 <= i < j < |s| ==> s[i] != s[j]
  }

  /** Every name of `order` has a connected flag. */
  predicate Covers(order: seq<string>, connected: map<string, bool>) {
    forall n :: n in order ==> n in connected
  }

  /** A well-formed roster: every name appears once in the order, and the
      order and the flags name the same players. */
  predicate Valid(p: Players) {
    Distinct(p.order) && Covers(p.order, p.connected) &&
    forall n :: n in p.connected ==> n in p.order
  }

  /** `a` is `s` with some elements left out, the rest in their order. */
  predicate IsSubseq(a: seq<string>, s: seq<string>)
    decreases |s|
  {
    if a == [] then true
    else if s == [] then false
    else if a[0] == s[0] then IsSubseq(a[1..], s[1..])
    else IsSubseq(a, s[1..])
  }

  /** Adding a player: an empty name or a name already on the roster changes
      nothing; any other name goes at the end of the order, not connected. */
  function AddPlayer(p: Players, name: string): (q: Players)
    ensures name == "" || name in p.connected ==> q == p
    ensures name != "" && name !in p.connected ==>
              q.order == p.order + [name] && name in q.connected && !q.connected[name]
    ensures q.connected.Keys == if name == "" then p.connected.Keys else p.connected.Keys + {name}
    ensures forall n :: n in p.connected ==> q.connected[n] == p.connected[n]
    ensures Valid(p) ==> Valid(q)
  {
    if name != "" && name !in p.connected then
      Players(p.order + [name], p.connected[name := false])
    else
      p
  }

  /** Connecting a player: a known name becomes connected and nothing else
      changes; an unknown name changes nothing. */
  function ConnectPlayer(p: Players, name: string): (q: Players)
    ensures q.order == p.order && q.connected.Keys == p.connected.Keys
    ensures name in p.connected ==> q.connected[name]
    ensures forall n :: n in p.connected && n != name ==> q.connected[n] == p.connected[n]
    ensures name !in p.connected ==> q == p
    ensures Valid(p) ==> Valid(q)
  {
    if name in p.connected then
      Players(p.order, p.connected[name := true])
    else
      p
  }

  /** The names offered in the "who are you" list: the names of `order`, in
      order, whose flag says not connected. */
  function Available(order: seq<string>, connected: map<string, bool>): (r: seq<string>)
    requires Covers(order, connected)
    ensures forall n :: n in r <==> n in order && !connected[n]
    ensures IsSubseq(r, order)
    ensures Distinct(order) ==> Distinct(r)
  {
    if order == [] then []
    else
      var rest := Available(order[1..], connected);
      assert forall n :: n in order <==> n == order[0] || n in order[1..];
      if connected[order[0]] then rest else [order[0]] + rest
  }

  lemma {:induction false} SubseqMembers(a: seq<string>, s: seq<string>)
    requires IsSubseq(a, s)
    ensures forall n :: n in a ==> n in s
    decreases |s|
  {
    if a != [] && s != [] {
      if a[0] == s[0] {
        SubseqMembers(a[1..], s[1..]);
        assert forall n :: n in a ==> n == a[0] || n in a[1..];
      } else {
        SubseqMembers(a, s[1..]);
      }
    }
  }

  lemma {:induction false} SubseqReflexive(s: seq<string>)
    ensures IsSubseq(s, s)
    decreases |s|
  {
    if s != [] {
      SubseqReflexive(s[1..]);
    }
  }

  /** The list is the only sequence that keeps the roster's order and holds
      exactly the names that are not connected: `Available` is the filter the
      "who are you" list asks for, and nothing else. */
  lemma {:induction false} AvailableCharacterised(a: seq<string>, order: seq<string>, connected: map<string, bool>)
    requires Distinct(order) && Covers(order, connected)
    requires IsSubseq(a, order)
    requires forall n :: n in a <==> n in order && !connected[n]
    ensures a == Available(order, connected)
    decreases |order|
  {
    if order != [] {
      var x, rest := order[0], order[1..];
      assert forall n :: n in order <==> n == x || n in rest;
      assert x !in rest;
      if a == [] {
        AvailableCharacterised(a, rest, connected);
      } else if a[0] != x {
        assert IsSubseq(a, rest);
        SubseqMembers(a, rest);
        assert x !in a;
        AvailableCharacterised(a, rest, connected);
      } else {
        assert IsSubseq(a[1..], rest);
        SubseqMembers(a[1..], rest);
        assert forall n :: n in a <==> n == x || n in a[1..];
        AvailableCharacterised(a[1..], rest, connected);
      }
    }
  }

  /** Scanning one more name extends the list by that name when it is not
      connected. */
  lemma {:induction false} AvailableAppend(order: seq<string>, x: string, connected: map<string, bool>)
    requires Covers(order + [x], connected)
    ensures Covers(order, connected)
    ensures Available(order + [x], connected)
            == Available(order, connected) + if connected[x] then [] else [x]
    decreases |order|
  {
    assert forall n :: n in order ==> n in order + [x];
    if order != [] {
      assert (order + [x])[0] == order[0];
      assert (order + [x])[1..] == order[1..] + [x];
      AvailableAppend(order[1..], x, connected);
    } else {
      assert [x][1..] == [];
    }
  }

  /** The list depends only on the flags of the names in the order. */
  lemma {:induction false} AvailableFrame(order: seq<string>, m: map<string, bool>, m': map<string, bool>)
    requires Covers(order, m) && Covers(order, m')
    requires forall n :: n in order ==> m[n] == m'[n]
    ensures Available(order, m) == Available(order, m')
    decreases |order|
  {
    if order != [] {
      assert forall n :: n in order[1..] ==> n in order;
      AvailableFrame(order[1..], m, m');
    }
  }

  /** A newly added player appears at the end of the "who are you" list; a
      rejected name leaves the list as it was. */
  lemma AvailableAfterAdd(p: Players, name: string)
    requires Valid(p)
    ensures Valid(AddPlayer(p, name))
    ensures var q := AddPlayer(p, name);
            Available(q.order, q.connected)
            == Available(p.order, p.connected) + if name != "" && name !in p.connected then [name] else []
  {
    var q := AddPlayer(p, name);
    if name != "" && name !in p.connected {
      AvailableAppend(p.order, name, q.connected);
      AvailableFrame(p.order, p.connected, q.connected);
    }
  }

  lemma {:induction false} AvailableConnectSub(order: seq<string>, m: map<string, bool>, name: string)
    requires Covers(order, m) && name in m
    ensures Covers(order, m[name := true])
    ensures IsSubseq(Available(order, m[name := true]), Available(order, m))
    decreases |order|
  {
    var m' := m[name := true];
    if order != [] {
      var x := order[0];
      assert forall n :: n in order[1..] ==> n in order;
      AvailableConnectSub(order[1..], m, name);
      var a, b := Available(order[1..], m'), Available(order[1..], m);
      if !m'[x] {
        assert Available(order, m') == [x] + a && Available(order, m) == [x] + b;
        assert ([x] + a)[1..] == a && ([x] + b)[1..] == b;
      } else if !m[x] {
        assert x == name && name !in a;
        assert Available(order, m') == a && Available(order, m) == [x] + b;
        assert ([x] + b)[1..] == b;
      }
    }
  }

  /** Connecting a player removes that name from the "who are you" list and
      keeps every other name, in the same order. */
  lemma AvailableAfterConnect(p: Players, name: string)
    requires Valid(p)
    ensures Valid(ConnectPlayer(p, name))
    ensures var q := ConnectPlayer(p, name);
            var before, after := Available(p.order, p.connected), Available(q.order, q.connected);
            name !in after &&
            (forall n :: n != name ==> (n in after <==> n in before)) &&
            IsSubseq(after, before)
  {
    if name in p.connected {
      AvailableConnectSub(p.order, p.connected, name);
    } else {
      SubseqReflexive(Available(p.order, p.connected));
    }
  }

  /** Adding the same name twice gives the roster that adding it once gives. */
  lemma AddPlayerIdempotent(p: Players, name: string)
    ensures AddPlayer(AddPlayer(p, name), name) == AddPlayer(p, name)
  {
  }
}
