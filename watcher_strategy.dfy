/**
 * The bearcat-ha watcher strategy (tool/bearcat-ha/lib/watcher/watcherStrategy.js):
 * each watcher reports a snapshot of the nodes it sees as available and unavailable.
 * `Elect` tallies signed votes per node over all snapshots and splits the nodes
 * into an available and an unavailable list; `ElectNode` is a per-node majority test.
 */
module WatcherStrategy {

  /** One watcher's report. */
  datatype Snapshot = Snapshot(available: seq<string>, unavailable: seq<string>)

  predicate Distinct(s: seq<string>)
  {
    forall i, j :: 0 <= i < j < |s| ==> s[i] != s[j]
  }

  /** The number of occurrences of `x` in `s`. */
  function Count(s: seq<string>, x: string): nat
  {
    if s == [] then 0 else Count(s[..|s| - 1], x) + (if s[|s| - 1] == x then 1 else 0)
  }

  /** One snapshot's votes for `x`: +1 per occurrence in `available`, -1 per occurrence in `unavailable`. */
  function Vote(s: Snapshot, x: string): int
  {
    Count(s.available, x) - Count(s.unavailable, x)
  }

  /** The summed votes for `x` over all snapshots. */
  function Tally(data: seq<Snapshot>, x: string): int
  {
    if data == [] then 0 else Tally(data[..|data| - 1], x) + Vote(data[|data| - 1], x)
  }

  /** The names a snapshot mentions, in either list. */
  function Mentions(s: Snapshot): set<string>
  {
    (set y | y in s.available) + (set y | y in s.unavailable)
  }

  /** The names mentioned by some snapshot: the keys of the `votes` dictionary. */
  function Names(data: seq<Snapshot>): set<string>
  {
    if data == [] then {} else Names(data[..|data| - 1]) + Mentions(data[|data| - 1])
  }

  /** The outcome of `elect` as two sets: names with a positive tally, and the other mentioned names. */
  function ElectSets(data: seq<Snapshot>): (r: (set<string>, set<string>))
  {
    (set x | x in Names(data) && Tally(data, x) > 0, set x | x in Names(data) && Tally(data, x) <= 0)
  }

  /** `electNode`'s running count for `x`: -1 per snapshot listing `x` as unavailable, +1 per other snapshot. */
  function NodeScore(snapshots: seq<Snapshot>, x: string): int
  {
    if snapshots == [] then 0
    else NodeScore(snapshots[..|snapshots| - 1], x) + (if x in snapshots[|snapshots| - 1].unavailable then -1 else 1)
  }

  /** The number of snapshots that list `x` as unavailable. */
  function Listed(snapshots: seq<Snapshot>, x: string): nat
  {
    if snapshots == [] then 0
    else Listed(snapshots[..|snapshots| - 1], x) + (if x in snapshots[|snapshots| - 1].unavailable then 1 else 0)
  }

  lemma {:induction false} CountAbsent(s: seq<string>, x: string)
    requires x !in s
    ensures Count(s, x) == 0
  {
    if s != [] {
      CountAbsent(s[..|s| - 1], x);
    }
  }

  /** A name no snapshot mentions has tally 0. */
  lemma {:induction false} TallyUnmentioned(data: seq<Snapshot>, x: string)
    requires x !in Names(data)
    ensures Tally(data, x) == 0
  {
    if data != [] {
      TallyUnmentioned(data[..|data| - 1], x);
      CountAbsent(data[|data| - 1].available, x);
      CountAbsent(data[|data| - 1].unavailable, x);
    }
  }

  /** `votes` holds a count for exactly the names listed in `keys`, each listed once. */
  ghost predicate KeysOf(votes: map<string, int>, keys: seq<string>)
  {
    Distinct(keys) && forall y :: y in keys <==> y in votes
  }

  /** `n` with the sign of a vote: positive for `available`, negative for `unavailable`. */
  function Signed(positive: bool, n: int): int
  {
    if positive then n else -n
  }

  /**
   * One `forEach` of `elect` over a list of names: an absent name starts at 0,
   * and every occurrence adds 1 (`positive`) or subtracts 1 from its count.
   */
  method CastVotes(votes: map<string, int>, keys: seq<string>, names: seq<string>, positive: bool)
    returns (votes': map<string, int>, keys': seq<string>)
    requires KeysOf(votes, keys)
    ensures KeysOf(votes', keys')
    ensures forall y :: y in votes' <==> y in votes || y in names
    ensures forall y :: y in votes' ==> votes'[y] == (if y in votes then votes[y] else 0) + Signed(positive, Count(names, y))
  {
    votes', keys' := votes, keys;
    for j := 0 to |names|
      invariant KeysOf(votes', keys')
      invariant forall y :: y in votes' <==> y in votes || y in names[..j]
      invariant forall y :: y in votes' ==> votes'[y] == (if y in votes then votes[y] else 0) + Signed(positive, Count(names[..j], y))
    {
      var name := names[j];
      assert names[..j + 1] == names[..j] + [name];
      assert names[..j + 1][..j] == names[..j];
      if name !in votes' {
        CountAbsent(names[..j], name);
      }
      votes', keys' := CastVote(votes', keys', name, positive);
    }
    assert names[..|names|] == names;
  }

  /** One occurrence of `name`: an absent name starts at 0 and joins the keys, then its count moves by one. */
  method CastVote(votes: map<string, int>, keys: seq<string>, name: string, positive: bool)
    returns (votes': map<string, int>, keys': seq<string>)
    requires KeysOf(votes, keys)
    ensures KeysOf(votes', keys')
    ensures votes' == votes[name := (if name in votes then votes[name] else 0) + Signed(positive, 1)]
  {
    votes', keys' := votes, keys;
    if name !in votes' {
      votes' := votes'[name := 0];
      keys' := keys' + [name];
    }
    votes' := votes'[name := votes'[name] + (if positive then 1 else -1)];
  }

  /** The `for ... in votes` loop of `elect`: split the names by count > 0. */
  method Partition(votes: map<string, int>, keys: seq<string>) returns (available: seq<string>, unavailable: seq<string>)
    requires KeysOf(votes, keys)
    ensures forall x :: x in available <==> x in votes && votes[x] > 0
    ensures forall x :: x in unavailable <==> x in votes && votes[x] <= 0
    ensures Distinct(available) && Distinct(unavailable)
  {
    available := [];
    unavailable := [];
    for k := 0 to |keys|
      invariant forall x :: x in available <==> x in keys[..k] && x in votes && votes[x] > 0
      invariant forall x :: x in unavailable <==> x in keys[..k] && x in votes && votes[x] <= 0
      invariant Distinct(available) && Distinct(unavailable)
    {
      var name := keys[k];
      assert keys[..k + 1] == keys[..k] + [name];
      assert name !in keys[..k];
      if votes[name] > 0 {
        available := available + [name];
      } else {
        unavailable := unavailable + [name];
      }
    }
    assert keys[..|keys|] == keys;
  }

  /** `elect`: the signed vote tally, then the partition by tally > 0 (a tie at 0 is unavailable). */
  method Elect(data: seq<Snapshot>) returns (available: seq<string>, unavailable: seq<string>)
    ensures forall x :: x in available <==> x in Names(data) && Tally(data, x) > 0
    ensures forall x :: x in unavailable <==> x in Names(data) && Tally(data, x) <= 0
    ensures Distinct(available) && Distinct(unavailable)
  {
    var votes: map<string, int> := map[];
    var keys: seq<string> := [];
    for i := 0 to |data|
      invariant KeysOf(votes, keys)
      invariant votes.Keys == Names(data[..i])
      invariant forall y :: y in votes ==> votes[y] == Tally(data[..i], y)
    {
      var s := data[i];
      assert data[..i + 1][..i] == data[..i];
      var votes1, keys1 := CastVotes(votes, keys, s.available, true);
      var votes2, keys2 := CastVotes(votes1, keys1, s.unavailable, false);
      forall y | y in votes2
        ensures votes2[y] == Tally(data[..i + 1], y)
      {
        assert Tally(data[..i + 1], y) == Tally(data[..i], y) + Vote(s, y);
        if y !in votes {
          TallyUnmentioned(data[..i], y);
        }
        if y !in s.available {
          CountAbsent(s.available, y);
        }
      }
      votes, keys := votes2, keys2;
    }
    assert data[..|data|] == data;
    available, unavailable := Partition(votes, keys);
  }

  /** The two lists of `elect` are disjoint, and together they hold exactly the mentioned names. */
  lemma ElectPartition(data: seq<Snapshot>)
    ensures ElectSets(data).0 * ElectSets(data).1 == {}
    ensures ElectSets(data).0 + ElectSets(data).1 == Names(data)
  {
  }

  /** A name is mentioned by the whole list iff some snapshot mentions it. */
  lemma {:induction false} NamesMentioned(data: seq<Snapshot>, x: string)
    ensures x in Names(data) <==> exists i :: 0 <= i < |data| && x in Mentions(data[i])
  {
    if data != [] {
      var init := data[..|data| - 1];
      NamesMentioned(init, x);
      if exists i :: 0 <= i < |init| && x in Mentions(init[i]) {
        var i :| 0 <= i < |init| && x in Mentions(init[i]);
        assert data[i] == init[i];
      }
      if exists i :: 0 <= i < |data| && x in Mentions(data[i]) {
        var i :| 0 <= i < |data| && x in Mentions(data[i]);
        if i < |init| {
          assert init[i] == data[i];
        }
      }
    }
  }

  /** Taking out the snapshot at `k` takes out exactly its votes. */
  lemma {:induction false} TallyRemove(data: seq<Snapshot>, k: int, x: string)
    requires 0 <= k < |data|
    ensures Tally(data, x) == Tally(data[..k] + data[k + 1..], x) + Vote(data[k], x)
    decreases |data|
  {
    var init := data[..|data| - 1];
    if k == |data| - 1 {
      assert data[..k] + data[k + 1..] == init;
    } else {
      TallyRemove(init, k, x);
      var rest := init[..k] + init[k + 1..];
      assert data[..k] + data[k + 1..] == rest + [data[|data| - 1]];
      assert (rest + [data[|data| - 1]])[..|rest|] == rest;
    }
  }

  /** Taking out the element at `k` takes one copy of it out of the multiset. */
  lemma RemoveOne(b: seq<Snapshot>, k: int)
    requires 0 <= k < |b|
    ensures multiset(b[..k] + b[k + 1..]) == multiset(b) - multiset{b[k]}
  {
    assert b == b[..k] + [b[k]] + b[k + 1..];
  }

  /** The tally does not depend on the order of the snapshots. */
  lemma {:induction false} TallyPermutation(a: seq<Snapshot>, b: seq<Snapshot>, x: string)
    requires multiset(a) == multiset(b)
    ensures Tally(a, x) == Tally(b, x)
    decreases |a|
  {
    if a == [] {
      assert |b| == |multiset(b)| == 0;
    } else {
      var last := a[|a| - 1];
      var init := a[..|a| - 1];
      assert a == init + [last];
      assert multiset(init) == multiset(a) - multiset{last};
      assert last in multiset(b);
      var k :| 0 <= k < |b| && b[k] == last;
      var rest := b[..k] + b[k + 1..];
      RemoveOne(b, k);
      TallyPermutation(init, rest, x);
      TallyRemove(b, k, x);
    }
  }

  /** The mentioned names do not depend on the order of the snapshots. */
  lemma NamesPermutation(a: seq<Snapshot>, b: seq<Snapshot>)
    requires multiset(a) == multiset(b)
    ensures Names(a) == Names(b)
  {
    forall x | x in Names(a)
      ensures x in Names(b)
    {
      NamesMentioned(a, x);
      var i :| 0 <= i < |a| && x in Mentions(a[i]);
      assert a[i] in multiset(b);
      var j :| 0 <= j < |b| && b[j] == a[i];
      NamesMentioned(b, x);
    }
    forall x | x in Names(b)
      ensures x in Names(a)
    {
      NamesMentioned(b, x);
      var j :| 0 <= j < |b| && x in Mentions(b[j]);
      assert b[j] in multiset(a);
      var i :| 0 <= i < |a| && a[i] == b[j];
      NamesMentioned(a, x);
    }
  }

  /** The outcome of `elect`, taken as sets, does not depend on the order of the snapshots. */
  lemma ElectOrderIndependent(a: seq<Snapshot>, b: seq<Snapshot>)
    requires multiset(a) == multiset(b)
    ensures ElectSets(a) == ElectSets(b)
  {
    NamesPermutation(a, b);
    forall x
      ensures (x in ElectSets(a).0 <==> x in ElectSets(b).0) && (x in ElectSets(a).1 <==> x in ElectSets(b).1)
    {
      TallyPermutation(a, b, x);
    }
    assert ElectSets(a).0 == ElectSets(b).0;
    assert ElectSets(a).1 == ElectSets(b).1;
  }

  /** `electNode`: the running count over the snapshots is positive. */
  method ElectNode(node: string, snapshots: seq<Snapshot>) returns (r: bool)
    ensures r <==> NodeScore(snapshots, node) > 0
    ensures r <==> 2 * Listed(snapshots, node) < |snapshots|
    ensures snapshots == [] ==> !r
  {
    var count := 0;
    for i := 0 to |snapshots|
      invariant count == NodeScore(snapshots[..i], node)
    {
      assert snapshots[..i + 1][..i] == snapshots[..i];
      if node in snapshots[i].unavailable {
        count := count - 1;
      } else {
        count := count + 1;
      }
    }
    assert snapshots[..|snapshots|] == snapshots;
    NodeScoreMajority(snapshots, node);
    r := count > 0;
  }

  /** The count is (snapshots not listing x) minus (snapshots listing x): a strict majority test. */
  lemma {:induction false} NodeScoreMajority(snapshots: seq<Snapshot>, x: string)
    ensures NodeScore(snapshots, x) == |snapshots| - 2 * Listed(snapshots, x)
  {
    if snapshots != [] {
      NodeScoreMajority(snapshots[..|snapshots| - 1], x);
    }
  }

  /**
   * A snapshot that mentions `x` in neither list adds nothing to `elect`'s tally
   * for `x` but counts +1 in `electNode`.
   */
  lemma SilentSnapshot(data: seq<Snapshot>, s: Snapshot, x: string)
    requires x !in s.available && x !in s.unavailable
    ensures Tally(data + [s], x) == Tally(data, x)
    ensures NodeScore(data + [s], x) == NodeScore(data, x) + 1
  {
    assert (data + [s])[..|data|] == data;
    CountAbsent(s.available, x);
    CountAbsent(s.unavailable, x);
  }

  /**
   * The two can disagree: one watcher sees "a" available, one says nothing about
   * it, one sees it unavailable. `elect` puts "a" in the unavailable list (tally 0),
   * while `electNode("a")` is true (count 1).
   */
  lemma ElectAndElectNodeDisagree()
    ensures var data := [Snapshot(["a"], []), Snapshot([], []), Snapshot([], ["a"])];
            "a" in ElectSets(data).1 && NodeScore(data, "a") > 0
  {
    var data := [Snapshot(["a"], []), Snapshot([], []), Snapshot([], ["a"])];
    assert ["a"][..0] == [];
    assert Count(["a"], "a") == 1;
    assert data[..1][..0] == [];
    assert data[..2][..1] == data[..1];
    assert data[..3][..2] == data[..2];
    assert Tally(data[..1], "a") == 1;
    assert Tally(data[..2], "a") == 1;
    assert data[..3] == data;
    assert Tally(data, "a") == 0;
    assert "a" in Mentions(data[2]);
    assert NodeScore(data[..1], "a") == 1;
    assert NodeScore(data[..2], "a") == 2;
  }
}
