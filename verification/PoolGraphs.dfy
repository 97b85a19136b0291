/** The pool graph: live pools indexed by the tokens they trade. */
module PoolGraphs {
  import opened Pricing

  /** Pools with an empty side are dropped when the graph is built. */
  predicate Live(p: Pool) {
    p.reserveA > 0 && p.reserveB > 0
  }

  predicate Joins(p: Pool, a: Mint, b: Mint) {
    (p.tokenA == a && p.tokenB == b) || (p.tokenA == b && p.tokenB == a)
  }

  /** The index entry of a token: one entry for each side of a live pool that holds it. */
  function Entries(pools: seq<Pool>, t: Mint): seq<Pool> {
    if pools == [] then []
    else
      var p := pools[|pools| - 1];
      var rest := Entries(pools[..|pools| - 1], t);
      if !Live(p) then rest
      else rest + (if p.tokenA == t then [p] else []) + (if p.tokenB == t then [p] else [])
  }

  function Filter(ps: seq<Pool>, a: Mint, b: Mint): seq<Pool> {
    if ps == [] then []
    else if Joins(ps[0], a, b) then [ps[0]] + Filter(ps[1..], a, b)
    else Filter(ps[1..], a, b)
  }

  /** The pools between two tokens, in index order. */
  function DirectPools(pools: seq<Pool>, a: Mint, b: Mint): seq<Pool> {
    Filter(Entries(pools, a), a, b)
  }

  function Other(p: Pool, t: Mint): Mint {
    if p.tokenA == t then p.tokenB else p.tokenA
  }

  /**
   * A pool that joins two different tokens is listed as often as it was supplied; one that joins a token to
   * itself, twice that.
   */
  lemma {:induction false} EntryCount(pools: seq<Pool>, t: Mint, p: Pool)
    ensures multiset(Entries(pools, t))[p]
         == if !Live(p) then 0
            else multiset(pools)[p] * ((if p.tokenA == t then 1 else 0) + (if p.tokenB == t then 1 else 0))
  {
    if pools != [] {
      var last := |pools| - 1;
      EntryCount(pools[..last], t, p);
      assert pools == pools[..last] + [pools[last]];
    }
  }

  lemma {:induction false} FilterCount(ps: seq<Pool>, a: Mint, b: Mint, p: Pool)
    ensures multiset(Filter(ps, a, b))[p] == if Joins(p, a, b) then multiset(ps)[p] else 0
  {
    if ps != [] {
      FilterCount(ps[1..], a, b, p);
      assert ps == [ps[0]] + ps[1..];
    }
  }

  /**
   * `direct` returns exactly the live pools between two tokens; duplicates come only from the input, or
   * from a == b.
   */
  lemma DirectCount(pools: seq<Pool>, a: Mint, b: Mint, p: Pool)
    ensures multiset(DirectPools(pools, a, b))[p]
         == if 0 < p.reserveA && 0 < p.reserveB && {p.tokenA, p.tokenB} == {a, b}
            then multiset(pools)[p] * (if a == b then 2 else 1) else 0
  {
    EntryCount(pools, a, p);
    FilterCount(Entries(pools, a), a, b, p);
    JoinsIff(p, a, b);
  }

  lemma JoinsIff(p: Pool, a: Mint, b: Mint)
    ensures Joins(p, a, b) <==> {p.tokenA, p.tokenB} == {a, b}
  {
    if {p.tokenA, p.tokenB} == {a, b} {
      assert p.tokenA in {a, b} && p.tokenB in {a, b} && a in {p.tokenA, p.tokenB} && b in {p.tokenA, p.tokenB};
    }
  }

  lemma FirstThenRest(first: seq<Pool>, rest: seq<Pool>, more: seq<Pool>)
    ensures first + (rest + more) == first + rest + more
  {
  }

  lemma {:induction false} FilterConcat(ps: seq<Pool>, more: seq<Pool>, a: Mint, b: Mint)
    ensures Filter(ps + more, a, b) == Filter(ps, a, b) + Filter(more, a, b)
  {
    if ps == [] {
      assert ps + more == more;
    } else {
      FilterConcat(ps[1..], more, a, b);
      assert (ps + more)[0] == ps[0] && (ps + more)[1..] == ps[1..] + more;
      FirstThenRest(if Joins(ps[0], a, b) then [ps[0]] else [], Filter(ps[1..], a, b), Filter(more, a, b));
    }
  }

  /** One pool more adds at most itself, behind the ones that were there: `direct` keeps the order of the input. */
  lemma DirectKeepsOrder(pools: seq<Pool>, p: Pool, a: Mint, b: Mint)
    ensures DirectPools([], a, b) == []
    ensures DirectPools(pools + [p], a, b)
         == DirectPools(pools, a, b) + (if p.reserveA <= 0 || p.reserveB <= 0 || {p.tokenA, p.tokenB} != {a, b} then []
                                        else if a == b then [p, p] else [p])
  {
    var added := if !Live(p) then [] else (if p.tokenA == a then [p] else []) + (if p.tokenB == a then [p] else []);
    assert (pools + [p])[..|pools|] == pools;
    assert Entries(pools + [p], a) == Entries(pools, a) + added;
    FilterConcat(Entries(pools, a), added, a, b);
    JoinsIff(p, a, b);
    assert [p][1..] == [] && [p, p][1..] == [p];
  }

  lemma DirectMembership(pools: seq<Pool>, a: Mint, b: Mint, p: Pool)
    ensures p in DirectPools(pools, a, b) <==> p in pools && Live(p) && Joins(p, a, b)
  {
    DirectCount(pools, a, b, p);
    JoinsIff(p, a, b);
  }

  /** Some listed pool leads from `token` to `m`. */
  ghost predicate Met(entries: seq<Pool>, token: Mint, m: Mint) {
    exists k :: 0 <= k < |entries| && m == Other(entries[k], token)
  }

  /** Some live pool joins the two tokens. */
  ghost predicate Adjacent(pools: seq<Pool>, token: Mint, m: Mint) {
    exists p :: p in pools && Live(p) && Joins(p, token, m)
  }

  class PoolGraph {
    ghost const pools: seq<Pool>
    var byToken: map<Mint, seq<Pool>>

    /** The index entry of a token, empty if it has none. */
    function Lookup(t: Mint): seq<Pool>
      reads this
    {
      if t in byToken then byToken[t] else []
    }

    ghost predicate Valid()
      reads this
    {
      forall t :: Lookup(t) == Entries(pools, t)
    }

    constructor (pools: seq<Pool>)
      ensures Valid() && this.pools == pools
    {
      this.pools := pools;
      byToken := map[];
      new;
      for i := 0 to |pools|
        invariant forall t :: Lookup(t) == Entries(pools[..i], t)
      {
        assert pools[..i + 1][..i] == pools[..i];
        var p := pools[i];
        if p.reserveA <= 0 || p.reserveB <= 0 {
          continue;
        }
        Add(p.tokenA, p);
        Add(p.tokenB, p);
      }
      assert pools[..|pools|] == pools;
    }

    method Add(t: Mint, p: Pool)
      modifies this`byToken
      ensures forall u :: Lookup(u) == old(Lookup(u)) + if u == t then [p] else []
    {
      if t in byToken {
        byToken := byToken[t := byToken[t] + [p]];
      } else {
        byToken := byToken[t := [p]];
      }
    }

    method Direct(a: Mint, b: Mint) returns (r: seq<Pool>)
      requires Valid()
      ensures r == DirectPools(pools, a, b)
    {
      var entries := Lookup(a);
      r := [];
      for i := 0 to |entries|
        invariant r + Filter(entries[i..], a, b) == DirectPools(pools, a, b)
      {
        var p := entries[i];
        assert entries[i..][1..] == entries[i + 1..];
        if (p.tokenA == a && p.tokenB == b) || (p.tokenA == b && p.tokenB == a) {
          r := r + [p];
        }
      }
    }

    /** The tokens one pool away, each once, in the order they were first met. */
    method Neighbors(token: Mint) returns (out: seq<Mint>)
      requires Valid()
      ensures forall m :: m in out <==> Adjacent(pools, token, m)
      ensures forall i, j :: 0 <= i < j < |out| ==> out[i] != out[j]
    {
      var entries := Lookup(token);
      out := [];
      for i := 0 to |entries|
        invariant forall m :: m in out <==> Met(entries[..i], token, m)
        invariant forall i, j :: 0 <= i < j < |out| ==> out[i] != out[j]
      {
        var m := if entries[i].tokenA == token then entries[i].tokenB else entries[i].tokenA;
        MetStep(entries, i, token);
        if m !in out {
          out := out + [m];
        }
      }
      assert entries[..|entries|] == entries;
      forall m ensures m in out <==> Adjacent(pools, token, m) {
        MetIffAdjacent(pools, token, m);
      }
    }
  }

  lemma MetStep(entries: seq<Pool>, i: nat, token: Mint)
    requires i < |entries|
    ensures forall m :: Met(entries[..i + 1], token, m)
                   <==> Met(entries[..i], token, m) || m == Other(entries[i], token)
  {
    forall m | Met(entries[..i], token, m) ensures Met(entries[..i + 1], token, m) {
      var k :| 0 <= k < i && m == Other(entries[..i][k], token);
      assert entries[..i + 1][k] == entries[..i][k];
    }
    assert entries[..i + 1][i] == entries[i];
    forall m | Met(entries[..i + 1], token, m) && m != Other(entries[i], token) ensures Met(entries[..i], token, m) {
      var k :| 0 <= k < i + 1 && m == Other(entries[..i + 1][k], token);
      assert entries[..i][k] == entries[..i + 1][k];
    }
  }

  lemma {:induction false} MetIffAdjacent(pools: seq<Pool>, token: Mint, m: Mint)
    ensures Met(Entries(pools, token), token, m) <==> Adjacent(pools, token, m)
  {
    var entries := Entries(pools, token);
    if Met(entries, token, m) {
      var k :| 0 <= k < |entries| && m == Other(entries[k], token);
      EntryMember(pools, token, entries[k]);
    }
    if Adjacent(pools, token, m) {
      var p :| p in pools && Live(p) && Joins(p, token, m);
      EntryMember(pools, token, p);
      var k :| 0 <= k < |entries| && entries[k] == p;
    }
  }

  lemma {:induction false} EntryMember(pools: seq<Pool>, t: Mint, p: Pool)
    ensures p in Entries(pools, t) <==> p in pools && Live(p) && t in {p.tokenA, p.tokenB}
  {
    EntryCount(pools, t, p);
  }
}
