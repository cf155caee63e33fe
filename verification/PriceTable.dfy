/** Folding alias tickers in the price table, and topping it up from a provider. */
module PriceTable {

  type Ticker = string

  /** Instants are ordered as their fixed-format UTC texts are. */
  type Instant = int
  type Day = int

  datatype PriceKey = PriceKey(ticker: Ticker, at: Instant, interval: string)
  datatype Bar = Bar(open: real, high: real, low: real, close: real, volume: int)
  type Prices = map<PriceKey, Bar>

  datatype Alias = Alias(name: Ticker, canonical: Ticker)

  // ---------- the alias fold ----------

  predicate Proper(a: Alias) { a.name != a.canonical }

  function Moved(k: PriceKey, a: Alias): PriceKey {
    if k.ticker == a.name then k.(ticker := a.canonical) else k
  }

  /** A row that an UPDATE OR IGNORE renames: nothing is in its way. */
  predicate Free(p: Prices, a: Alias, k: PriceKey) {
    k.ticker == a.name && Moved(k, a) !in p
  }

  function UpdateOrIgnore(p: Prices, a: Alias): Prices {
    map k | k in p.Keys + (set x | x in p && Free(p, a, x) :: Moved(x, a)) && !Free(p, a, k) ::
      if k in p then p[k] else p[k.(ticker := a.name)]
  }

  function DeleteTicker(p: Prices, t: Ticker): Prices {
    map k | k in p && k.ticker != t :: p[k]
  }

  function FoldOne(p: Prices, a: Alias): Prices {
    if Proper(a) then DeleteTicker(UpdateOrIgnore(p, a), a.name) else p
  }

  function FoldAll(p: Prices, aliases: seq<Alias>): Prices {
    if aliases == [] then p else FoldOne(FoldAll(p, aliases[..|aliases| - 1]), aliases[|aliases| - 1])
  }

  /** Rows of other tickers stay; a row of the alias moves unless one is in its way. */
  lemma FoldOneIs(p: Prices, a: Alias)
    ensures Proper(a) ==> forall k :: k in FoldOne(p, a) <==>
              k.ticker != a.name && (k in p || (k.ticker == a.canonical && k.(ticker := a.name) in p))
    ensures Proper(a) ==> forall k | k in FoldOne(p, a) ::
              FoldOne(p, a)[k] == if k in p then p[k] else p[k.(ticker := a.name)]
    ensures !Proper(a) ==> FoldOne(p, a) == p
  {
    if Proper(a) {
      forall k
        ensures k in FoldOne(p, a) <==>
                  k.ticker != a.name && (k in p || (k.ticker == a.canonical && k.(ticker := a.name) in p))
      {
        if k.ticker == a.canonical && k.(ticker := a.name) in p && k !in p {
          assert Free(p, a, k.(ticker := a.name)) && Moved(k.(ticker := a.name), a) == k;
        }
      }
    }
  }

  /** The ticker a row ends up under: the aliases are applied one after the other. */
  function Followed(t: Ticker, aliases: seq<Alias>): Ticker {
    if aliases == [] then t
    else
      var before := Followed(t, aliases[..|aliases| - 1]);
      var a := aliases[|aliases| - 1];
      if before == a.name then a.canonical else before
  }

  lemma {:induction false} FoldKeepsImage(p: Prices, aliases: seq<Alias>, k: PriceKey)
    requires k in p
    ensures k.(ticker := Followed(k.ticker, aliases)) in FoldAll(p, aliases)
  {
    hide FoldOne;
    if aliases == [] {
      assert k.(ticker := k.ticker) == k;
    } else {
      var init, a := aliases[..|aliases| - 1], aliases[|aliases| - 1];
      FoldKeepsImage(p, init, k);
      FoldOneIs(FoldAll(p, init), a);
      var y := k.(ticker := Followed(k.ticker, init));
      assert y.ticker == a.name ==> y.(ticker := a.canonical).(ticker := a.name) == y;
    }
  }

  lemma {:induction false} FoldInventsNothing(p: Prices, aliases: seq<Alias>, x: PriceKey) returns (k: PriceKey)
    requires x in FoldAll(p, aliases)
    ensures k in p && x == k.(ticker := Followed(k.ticker, aliases)) && FoldAll(p, aliases)[x] == p[k]
  {
    hide FoldOne;
    if aliases == [] {
      k := x;
    } else {
      var init, a := aliases[..|aliases| - 1], aliases[|aliases| - 1];
      var q := FoldAll(p, init);
      FoldOneIs(q, a);
      if x in q {
        k := FoldInventsNothing(p, init, x);
      } else {
        k := FoldInventsNothing(p, init, x.(ticker := a.name));
      }
    }
  }

  /** The keys after the fold are exactly the images of the keys before: no row identity is
      lost, and none appears from nowhere. */
  lemma FoldMapsKeys(p: Prices, aliases: seq<Alias>)
    ensures FoldAll(p, aliases).Keys == set k | k in p :: k.(ticker := Followed(k.ticker, aliases))
  {
    hide FoldAll, Followed;
    forall x
      ensures x in FoldAll(p, aliases) <==> exists k :: k in p && x == k.(ticker := Followed(k.ticker, aliases))
    {
      if x in FoldAll(p, aliases) {
        var k := FoldInventsNothing(p, aliases, x);
      }
      if k :| k in p && x == k.(ticker := Followed(k.ticker, aliases)) {
        FoldKeepsImage(p, aliases, k);
      }
    }
  }

  ghost predicate DistinctNames(aliases: seq<Alias>) {
    forall i, j :: 0 <= i < j < |aliases| ==> aliases[i].name != aliases[j].name
  }

  predicate IsAlias(aliases: seq<Alias>, t: Ticker) {
    exists i :: 0 <= i < |aliases| && Proper(aliases[i]) && aliases[i].name == t
  }

  /** No alias brings back the name of an earlier one. */
  ghost predicate NoBringBack(aliases: seq<Alias>) {
    forall i, j :: 0 <= i < j < |aliases| && Proper(aliases[i]) && Proper(aliases[j]) ==>
      aliases[j].canonical != aliases[i].name
  }

  lemma {:induction false} FollowedUntouched(t: Ticker, aliases: seq<Alias>)
    requires forall i :: 0 <= i < |aliases| && Proper(aliases[i]) ==> aliases[i].name != t
    ensures Followed(t, aliases) == t
  {
    if aliases == [] {
    } else {
      FollowedUntouched(t, aliases[..|aliases| - 1]);
    }
  }

  /** A row whose ticker is no alias is kept as it is. */
  lemma {:induction false} FoldKeepsCanonicalRows(p: Prices, aliases: seq<Alias>, k: PriceKey)
    requires k in p && !IsAlias(aliases, k.ticker)
    ensures k in FoldAll(p, aliases) && FoldAll(p, aliases)[k] == p[k]
  {
    if aliases == [] {
    } else {
      var init, a := aliases[..|aliases| - 1], aliases[|aliases| - 1];
      assert Proper(a) ==> aliases[|aliases| - 1].name != k.ticker;
      assert forall i :: 0 <= i < |init| ==> init[i] == aliases[i];
      FoldKeepsCanonicalRows(p, init, k);
      FoldOneIs(FoldAll(p, init), a);
    }
  }

  /** Where a row ends up is no alias, when no alias brings back an earlier name. */
  lemma {:induction false} FollowedIsCanonical(t: Ticker, aliases: seq<Alias>)
    requires NoBringBack(aliases)
    ensures !IsAlias(aliases, Followed(t, aliases))
  {
    if aliases == [] {
    } else {
      var n := |aliases| - 1;
      var init, a := aliases[..n], aliases[n];
      FollowedIsCanonical(t, init);
      assert forall i :: 0 <= i < n ==> init[i] == aliases[i];
    }
  }

  /** After folding no alias ticker is left, whatever was stored, exactly when no alias brings
      back the name of an earlier one. */
  lemma FoldLeavesNoAlias(aliases: seq<Alias>)
    requires DistinctNames(aliases)
    ensures (forall p: Prices, k | k in FoldAll(p, aliases) :: !IsAlias(aliases, k.ticker)) <==> NoBringBack(aliases)
  {
    if NoBringBack(aliases) {
      forall p: Prices, k | k in FoldAll(p, aliases)
        ensures !IsAlias(aliases, k.ticker)
      {
        FoldMapsKeys(p, aliases);
        var x :| x in p && k == x.(ticker := Followed(x.ticker, aliases));
        FollowedIsCanonical(x.ticker, aliases);
      }
    } else {
      var i, j :| 0 <= i < j < |aliases| && Proper(aliases[i]) && Proper(aliases[j])
                  && aliases[j].canonical == aliases[i].name;
      var k := PriceKey(aliases[j].name, 0, "15min");
      var p: Prices := map[k := Bar(1.0, 1.0, 1.0, 1.0, 1)];
      FollowedTo(aliases, j, |aliases|);
      assert aliases[..|aliases|] == aliases;
      FoldMapsKeys(p, aliases);
      var left := k.(ticker := aliases[i].name);
      assert left in FoldAll(p, aliases).Keys;
      assert IsAlias(aliases, left.ticker);
    }
  }

  lemma {:induction false} FollowedTo(aliases: seq<Alias>, j: nat, n: nat)
    requires DistinctNames(aliases) && j < n <= |aliases|
    requires exists i :: 0 <= i < j && aliases[i].name == aliases[j].canonical
    ensures Followed(aliases[j].name, aliases[..n]) == aliases[j].canonical
    decreases n
  {
    assert aliases[..n][..n - 1] == aliases[..n - 1];
    if n == j + 1 {
      FollowedUntouched(aliases[j].name, aliases[..j]);
    } else {
      FollowedTo(aliases, j, n - 1);
    }
  }

  predicate HasRows(p: Prices, t: Ticker) {
    exists k :: k in p && k.ticker == t
  }

  /** How many aliases had rows when their turn came. */
  function Reconciled(p: Prices, aliases: seq<Alias>): nat {
    if aliases == [] then 0
    else
      var init, a := aliases[..|aliases| - 1], aliases[|aliases| - 1];
      Reconciled(p, init) + if Proper(a) && HasRows(FoldAll(p, init), a.name) then 1 else 0
  }

  /** The loop over the aliases; the count is of aliases that had rows. */
  method Canonicalize(prices: Prices, aliases: seq<Alias>) returns (out: Prices, reconciled: nat)
    ensures out == FoldAll(prices, aliases) && reconciled == Reconciled(prices, aliases)
  {
    out, reconciled := prices, 0;
    for i := 0 to |aliases|
      invariant out == FoldAll(prices, aliases[..i]) && reconciled == Reconciled(prices, aliases[..i])
    {
      assert aliases[..i + 1][..i] == aliases[..i];
      var a := aliases[i];
      if Proper(a) {
        if HasRows(out, a.name) {
          out := DeleteTicker(UpdateOrIgnore(out, a), a.name);
          reconciled := reconciled + 1;
        } else {
          NothingToFold(out, a);
        }
      }
    }
    assert aliases[..|aliases|] == aliases;
  }

  lemma NothingToFold(p: Prices, a: Alias)
    requires forall k | k in p :: k.ticker != a.name
    ensures FoldOne(p, a) == p
  {
    FoldOneIs(p, a);
  }
}
