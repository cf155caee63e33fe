/** Ticker identity links, and the active universe resolved through them. */
module IdentityLinks {
  import opened PyValues

  type Symbol = string
  type Links = map<Symbol, Symbol>

  /** A stored link; a column that holds no text is None. */
  datatype LinkRow = LinkRow(source: Option<string>, successor: Option<string>)

  function Normalize(value: Option<string>, upper: string -> string): Symbol {
    if value.Some? then upper(Strip(value.value)) else ""
  }

  /** A column is read without the space around it, in capitals; a missing one is empty. */
  lemma ColumnMeans(front: string, text: string, back: string, upper: string -> string)
    requires AllSpace(front) && AllSpace(back) && (text != "" ==> !IsSpace(text[0]) && !IsSpace(text[|text| - 1]))
    ensures Normalize(Some(front + text + back), upper) == upper(text) && Normalize(None, upper) == ""
  {
    hide IsSpace;
    if text != "" {
      StripOf(front, text, back);
    } else {
      BlankMeans(front + text + back);
    }
  }

  // ---------- walking along links ----------

  function Steps(links: Links, s: Symbol, n: nat): Option<Symbol> {
    if n == 0 then Some(s)
    else
      var before := Steps(links, s, n - 1);
      if before.Some? && before.value in links then Some(links[before.value]) else None
  }

  ghost predicate Cyclic(links: Links) {
    exists s, n: nat :: n > 0 && Steps(links, s, n) == Some(s)
  }

  ghost predicate Ends(links: Links, s: Symbol, c: Symbol) {
    c !in links && exists n: nat :: Steps(links, s, n) == Some(c)
  }

  lemma {:induction false} StepsAdd(links: Links, s: Symbol, m: nat, n: nat)
    requires Steps(links, s, m).Some?
    ensures Steps(links, s, m + n) == Steps(links, Steps(links, s, m).value, n)
  {
    if n > 0 { StepsAdd(links, s, m, n - 1); }
  }

  lemma {:induction false} StepsPrefix(links: Links, s: Symbol, m: nat, n: nat)
    requires m <= n && Steps(links, s, n).Some?
    ensures Steps(links, s, m).Some?
  {
    if m < n { StepsPrefix(links, s, m, n - 1); }
  }

  /** On a cycle the walk never falls off. */
  lemma {:induction false} CycleNeverEnds(links: Links, s: Symbol, period: nat, n: nat)
    requires period > 0 && Steps(links, s, period) == Some(s)
    ensures Steps(links, s, n).Some?
  {
    if n <= period {
      StepsPrefix(links, s, n, period);
    } else {
      StepsAdd(links, s, period, n - period);
      CycleNeverEnds(links, s, period, n - period);
    }
  }

  /** Meeting a symbol twice on one walk exhibits a cycle. */
  lemma MeetingIsCycle(links: Links, s: Symbol, i: nat, n: nat)
    requires i < n && Steps(links, s, i).Some? && Steps(links, s, i) == Steps(links, s, n)
    ensures Cyclic(links)
  {
    StepsAdd(links, s, i, n - i);
    assert Steps(links, Steps(links, s, i).value, n - i) == Steps(links, s, i);
  }

  /** Links whose every walk ends have no cycle. */
  lemma EndingIsAcyclic(links: Links)
    requires forall s :: s in links ==> exists c :: Ends(links, s, c)
    ensures !Cyclic(links)
  {
    hide Steps, Ends;
    if Cyclic(links) {
      var s, period: nat :| period > 0 && Steps(links, s, period) == Some(s);
      CycleStartsInside(links, s, period);
      var c :| Ends(links, s, c);
      var n := EndStops(links, s, c);
      CycleNeverEnds(links, s, period, n + 1);
    }
  }

  lemma CycleStartsInside(links: Links, s: Symbol, period: nat)
    requires period > 0 && Steps(links, s, period) == Some(s)
    ensures s in links
  {
    StepsPrefix(links, s, 1, period);
    assert Steps(links, s, 0) == Some(s);
  }

  lemma EndStops(links: Links, s: Symbol, c: Symbol) returns (n: nat)
    requires Ends(links, s, c)
    ensures Steps(links, s, n) == Some(c) && Steps(links, s, n + 1).None?
  {
    n :| Steps(links, s, n) == Some(c);
  }

  /** The walk so far visited exactly `seen`, one symbol a step. */
  ghost predicate Walked(links: Links, s: Symbol, n: nat, seen: set<Symbol>) {
    seen <= links.Keys
    && Steps(links, s, n).Some?
    && (forall x :: x in seen ==> exists i: nat :: i < n && Steps(links, s, i) == Some(x))
  }

  lemma WalkedFurther(links: Links, s: Symbol, n: nat, seen: set<Symbol>)
    requires Walked(links, s, n, seen) && Steps(links, s, n).value in links
    ensures Walked(links, s, n + 1, seen + {Steps(links, s, n).value})
  {
  }

  lemma {:induction false} WalkEnds(links: Links, s: Symbol, n: nat, seen: set<Symbol>) returns (c: Symbol)
    requires Walked(links, s, n, seen) && !Cyclic(links)
    ensures Ends(links, s, c)
    decreases |links.Keys - seen|
  {
    hide Cyclic;
    c := Steps(links, s, n).value;
    if c in links {
      if c in seen {
        var i: nat :| i < n && Steps(links, s, i) == Some(c);
        MeetingIsCycle(links, s, i, n);
        assert false;
      } else {
        WalkedFurther(links, s, n, seen);
        assert links.Keys - (seen + {c}) < links.Keys - seen;
        c := WalkEnds(links, s, n + 1, seen + {c});
      }
    }
  }

  lemma EndIsUnique(links: Links, s: Symbol, c: Symbol, d: Symbol)
    requires Ends(links, s, c) && Ends(links, s, d)
    ensures c == d
  {
    var m: nat :| Steps(links, s, m) == Some(c);
    var n: nat :| Steps(links, s, n) == Some(d);
    if m < n {
      StepsPrefix(links, s, m + 1, n);
    } else if n < m {
      StepsPrefix(links, s, n + 1, m);
    }
  }

  lemma EndExists(links: Links, s: Symbol)
    requires !Cyclic(links)
    ensures exists c :: Ends(links, s, c)
  {
    var c := WalkEnds(links, s, 0, {});
  }

  /** Where a symbol's chain of successors ends. */
  ghost function Current(links: Links, s: Symbol): (c: Symbol)
    requires !Cyclic(links)
    ensures Ends(links, s, c)
  {
    EndExists(links, s);
    var c :| Ends(links, s, c);
    c
  }

  /** Resolution lands outside the links, leaves what is outside alone, is idempotent, and
      agrees with following one link first. */
  lemma CurrentIsIdempotent(links: Links, s: Symbol)
    requires !Cyclic(links)
    ensures Current(links, s) !in links && Current(links, Current(links, s)) == Current(links, s)
    ensures s !in links ==> Current(links, s) == s
    ensures s in links ==> Current(links, links[s]) == Current(links, s)
  {
    var c := Current(links, s);
    assert Steps(links, c, 0) == Some(c);
    EndIsUnique(links, c, c, Current(links, c));
    if s !in links {
      assert Steps(links, s, 0) == Some(s);
      EndIsUnique(links, s, s, c);
    } else {
      var d := Current(links, links[s]);
      var n: nat :| Steps(links, links[s], n) == Some(d);
      assert Steps(links, s, 0) == Some(s);
      assert Steps(links, s, 1) == Some(links[s]);
      StepsAdd(links, s, 1, n);
      EndIsUnique(links, s, c, d);
    }
  }

  /** Follow the links until one is missing; None is the error of a walk that closes. */
  method CurrentIdentity(symbol: Symbol, links: Links) returns (current: Option<Symbol>)
    ensures current.Some? ==> Ends(links, symbol, current.value)
    ensures current.None? ==> Cyclic(links) && forall c :: !Ends(links, symbol, c)
    ensures !Cyclic(links) ==> current == Some(Current(links, symbol))
  {
    var at := symbol;
    var seen: set<Symbol> := {};
    ghost var n: nat := 0;
    while at in links
      invariant Walked(links, symbol, n, seen) && Steps(links, symbol, n) == Some(at)
      decreases |links.Keys - seen|
    {
      if at in seen {
        ghost var i: nat :| i < n && Steps(links, symbol, i) == Some(at);
        MeetingIsCycle(links, symbol, i, n);
        ClosedWalkNeverEnds(links, symbol, i, n);
        return None;
      }
      WalkedFurther(links, symbol, n, seen);
      assert links.Keys - (seen + {at}) < links.Keys - seen;
      seen := seen + {at};
      at := links[at];
      n := n + 1;
    }
    current := Some(at);
    if !Cyclic(links) {
      EndIsUnique(links, symbol, at, Current(links, symbol));
    }
  }

  lemma ClosedWalkNeverEnds(links: Links, s: Symbol, i: nat, n: nat)
    requires i < n && Steps(links, s, i).Some? && Steps(links, s, i) == Steps(links, s, n)
    ensures forall c :: !Ends(links, s, c)
  {
    var x := Steps(links, s, i).value;
    StepsAdd(links, s, i, n - i);
    forall c
      ensures !Ends(links, s, c)
    {
      if Ends(links, s, c) {
        var m: nat :| Steps(links, s, m) == Some(c);
        if m < i {
          StepsPrefix(links, s, m + 1, i);
        } else {
          CycleNeverEnds(links, x, n - i, m - i + 1);
          StepsAdd(links, s, i, m - i + 1);
        }
      }
    }
  }

  // ---------- reading the links ----------

  datatype Link = Link(source: Symbol, successor: Symbol)

  function Read(row: LinkRow, upper: string -> string): Link {
    Link(Normalize(row.source, upper), Normalize(row.successor, upper))
  }

  ghost function ReadAll(rows: seq<LinkRow>, upper: string -> string): (r: seq<Link>)
    ensures |r| == |rows| && forall i :: 0 <= i < |rows| ==> r[i] == Read(rows[i], upper)
  {
    seq(|rows|, i requires 0 <= i < |rows| => Read(rows[i], upper))
  }

  predicate Proper(link: Link) {
    link.source != "" && link.successor != "" && link.source != link.successor
  }

  ghost predicate Functional(read: seq<Link>) {
    forall i, j :: 0 <= i < |read| && 0 <= j < |read| && read[i].source == read[j].source ==>
      read[i].successor == read[j].successor
  }

  ghost predicate Represents(links: Links, read: seq<Link>) {
    (forall i :: 0 <= i < |read| ==> read[i].source in links && links[read[i].source] == read[i].successor)
    && (forall s :: s in links ==> exists i :: 0 <= i < |read| && read[i].source == s)
  }

  ghost predicate Wellformed(read: seq<Link>) {
    (forall i :: 0 <= i < |read| ==> Proper(read[i])) && Functional(read)
  }

  /** Rows are acceptable when each is a link between two different symbols, no symbol has two
      successors, and the links they stand for have no cycle. */
  ghost predicate Acceptable(read: seq<Link>) {
    Wellformed(read) && exists links :: Represents(links, read) && !Cyclic(links)
  }

  method CollectLinks(rows: seq<LinkRow>, upper: string -> string) returns (result: Option<Links>)
    ensures result.Some? <==> Wellformed(ReadAll(rows, upper))
    ensures result.Some? ==> Represents(result.value, ReadAll(rows, upper))
  {
    hide Represents, Functional, Normalize;
    ghost var read := ReadAll(rows, upper);
    var links: Links := map[];
    NothingRepresentsNothing();
    for k := 0 to |rows|
      invariant forall i :: 0 <= i < k ==> Proper(read[i])
      invariant Represents(links, read[..k])
    {
      var source, successor := Normalize(rows[k].source, upper), Normalize(rows[k].successor, upper);
      assert read[k] == Link(source, successor);
      if source == "" || successor == "" || source == successor {
        assert !Proper(read[k]);
        return None;
      }
      if source in links && links[source] != successor {
        Conflicts(links, read, k);
        return None;
      }
      assert read[..k + 1] == read[..k] + [read[k]];
      RepresentsMore(links, read[..k], read[k]);
      links := links[source := successor];
    }
    assert read[..|rows|] == read;
    RepresentedIsFunctional(links, read);
    result := Some(links);
  }

  lemma NothingRepresentsNothing()
    ensures Represents(map[], [])
  {
  }

  lemma RepresentedIsFunctional(links: Links, read: seq<Link>)
    requires Represents(links, read)
    ensures Functional(read)
  {
  }

  lemma Conflicts(links: Links, read: seq<Link>, k: nat)
    requires k < |read| && Represents(links, read[..k])
    requires read[k].source in links && links[read[k].source] != read[k].successor
    ensures !Functional(read)
  {
    var i :| 0 <= i < k && read[..k][i].source == read[k].source;
    assert read[i] == read[..k][i];
  }

  lemma RepresentsMore(links: Links, read: seq<Link>, link: Link)
    requires Represents(links, read) && (link.source in links ==> links[link.source] == link.successor)
    ensures Represents(links[link.source := link.successor], read + [link])
  {
    assert (read + [link])[|read|] == link;
    assert forall i :: 0 <= i < |read| ==> (read + [link])[i] == read[i];
  }

  lemma RepresentsOne(a: Links, b: Links, read: seq<Link>)
    requires Represents(a, read) && Represents(b, read)
    ensures a == b
  {
  }

  /** The loop that walks from every source. */
  method AllWalksEnd(links: Links) returns (ok: bool)
    ensures ok <==> !Cyclic(links)
  {
    hide Cyclic, Ends;
    var todo := links.Keys;
    while todo != {}
      invariant todo <= links.Keys
      invariant forall s :: s in links && s !in todo ==> exists c :: Ends(links, s, c)
      decreases |todo|
    {
      var source :| source in todo;
      var current := CurrentIdentity(source, links);
      if current.None? {
        return false;
      }
      todo := todo - {source};
    }
    EndingIsAcyclic(links);
    ok := true;
  }

  /** The active links, or None when the rows are not acceptable. */
  method ReadLinks(rows: seq<LinkRow>, upper: string -> string) returns (result: Option<Links>)
    ensures result.Some? <==> Acceptable(ReadAll(rows, upper))
    ensures result.Some? ==> Represents(result.value, ReadAll(rows, upper)) && !Cyclic(result.value)
  {
    hide Cyclic, Represents, Wellformed;
    result := CollectLinks(rows, upper);
    if result.Some? {
      var ok := AllWalksEnd(result.value);
      if !ok {
        forall other | Represents(other, ReadAll(rows, upper)) ensures Cyclic(other) {
          RepresentsOne(result.value, other, ReadAll(rows, upper));
        }
        result := None;
      }
    }
  }

  // ---------- the universe snapshot ----------

  datatype SourceKey = ManualLists | PortfolioOpen | SaAlphaPicksCurrent | SaAlphaPicksFormer | LegacyConfigSeed

  const SOURCE_KEYS := [ManualLists, PortfolioOpen, SaAlphaPicksCurrent, SaAlphaPicksFormer, LegacyConfigSeed]

  datatype Memberships = Memberships(
    manualLists: set<Symbol>, portfolioOpen: set<Symbol>, saCurrent: set<Symbol>, saFormer: set<Symbol>,
        legacySeed: set<Symbol>)

  function Members(m: Memberships, key: SourceKey): set<Symbol> {
    match key
    case ManualLists => m.manualLists
    case PortfolioOpen => m.portfolioOpen
    case SaAlphaPicksCurrent => m.saCurrent
    case SaAlphaPicksFormer => m.saFormer
    case LegacyConfigSeed => m.legacySeed
  }

  type Universe = map<Symbol, set<SourceKey>>

  /** A source lists a symbol that resolves to this one. */
  ghost predicate Contributes(m: Memberships, links: Links, key: SourceKey, t: Symbol)
    requires !Cyclic(links)
  {
    exists s :: s in Members(m, key) && Current(links, s) == t
  }

  /** The universe holds exactly the resolved members that are not hidden, each with exactly
      the sources that list one of its spellings. */
  ghost predicate IsUniverse(u: Universe, m: Memberships, links: Links, hidden: set<Symbol>)
    requires !Cyclic(links)
  {
    (forall t :: t in u <==> t !in hidden && exists key :: Contributes(m, links, key, t))
    && (forall t, key :: t in u ==> (key in u[t] <==> Contributes(m, links, key, t)))
  }

  lemma SnapshotIsDetermined(u: Universe, v: Universe, m: Memberships, links: Links, hidden: set<Symbol>)
    requires !Cyclic(links)
    requires IsUniverse(u, m, links, hidden) && IsUniverse(v, m, links, hidden)
    ensures u == v
  {
    hide Contributes;
    forall t | t in u ensures u[t] == v[t] {
      forall key ensures key in u[t] <==> key in v[t] {
      }
    }
  }

  /** Marking a renamed ticker hidden hides nothing: the mark is not carried to its successor. */
  lemma HiddenRenamedTickerHidesNothing(u: Universe, m: Memberships, links: Links, hidden: set<Symbol>)
    requires !Cyclic(links) && IsUniverse(u, m, links, hidden)
    ensures IsUniverse(u, m, links, hidden - links.Keys)
    ensures forall t :: t in u ==> t !in links
  {
    forall t, key | Contributes(m, links, key, t)
      ensures t !in links
    {
    }
  }

  function Listed(u: Universe, key: SourceKey): set<Symbol> {
    set t | t in u && key in u[t]
  }

  function MembershipsOf(u: Universe): (m: Memberships)
    ensures forall key :: Members(m, key) == Listed(u, key)
  {
    Memberships(Listed(u, ManualLists), Listed(u, PortfolioOpen), Listed(u, SaAlphaPicksCurrent),
      Listed(u, SaAlphaPicksFormer), Listed(u, LegacyConfigSeed))
  }

  /** A snapshot is a fixed point: building one from its own members gives it back. */
  lemma SnapshotIsFixedPoint(u: Universe, m: Memberships, links: Links, hidden: set<Symbol>)
    requires !Cyclic(links) && IsUniverse(u, m, links, hidden)
    ensures IsUniverse(u, MembershipsOf(u), links, hidden)
  {
    HiddenRenamedTickerHidesNothing(u, m, links, hidden);
    forall s | s in u ensures Current(links, s) == s {
      CurrentIsIdempotent(links, s);
    }
    forall t, key
      ensures Contributes(MembershipsOf(u), links, key, t) <==> t in u && key in u[t]
    {
      if t in u && key in u[t] {
        assert t in Members(MembershipsOf(u), key) && Current(links, t) == t;
      }
    }
    forall t | t in u ensures exists key :: Contributes(MembershipsOf(u), links, key, t) {
      var key :| Contributes(m, links, key, t);
      assert key in u[t];
    }
  }

  // The members merged so far: whole sources, and part of one.
  ghost predicate Merged(u: Universe, links: Links, done: set<(SourceKey, Symbol)>)
    requires !Cyclic(links)
  {
    (forall t :: t in u <==> exists p :: p in done && Current(links, p.1) == t)
    && (forall t, key :: t in u ==> (key in u[t] <==> exists s :: (key, s) in done && Current(links, s) == t))
  }

  lemma MergedMore(u: Universe, links: Links, done: set<(SourceKey, Symbol)>, key: SourceKey, s: Symbol)
    requires !Cyclic(links) && Merged(u, links, done)
    ensures var t := Current(links, s);
            Merged(u[t := (if t in u then u[t] else {}) + {key}], links, done + {(key, s)})
  {
    hide Cyclic, Ends;
    var t := Current(links, s);
    var v := u[t := (if t in u then u[t] else {}) + {key}];
    var more := done + {(key, s)};
    assert (key, s) in more;
    forall x, k | x in v
      ensures k in v[x] <==> exists y :: (k, y) in more && Current(links, y) == x
    {
      if x in u && k in u[x] {
        var y :| (k, y) in done && Current(links, y) == x;
        assert (k, y) in more;
      }
      if y :| (k, y) in more && Current(links, y) == x {
        if (k, y) in done { assert x in u; }
      }
    }
  }

  /** The merge over the sources, then the removal of hidden tickers; None when a walk closes. */
  method BuildUniverse(m: Memberships, links: Links, hidden: set<Symbol>) returns (result: Option<Universe>)
    ensures !Cyclic(links) ==> result.Some? && IsUniverse(result.value, m, links, hidden)
    ensures result.None? ==> Cyclic(links)
  {
    hide Cyclic, Ends, Merged;
    var u: Universe := map[];
    ghost var done: set<(SourceKey, Symbol)> := {};
    if !Cyclic(links) { NothingMerged(links); }
    for i := 0 to |SOURCE_KEYS|
      invariant !Cyclic(links) ==> Merged(u, links, done)
      invariant forall p :: p in done <==> p.0 in SOURCE_KEYS[..i] && p.1 in Members(m, p.0)
    {
      var key := SOURCE_KEYS[i];
      var todo := Members(m, key);
      while todo != {}
        invariant todo <= Members(m, key)
        invariant !Cyclic(links) ==> Merged(u, links, done)
        invariant forall p :: p in done <==>
                    (p.0 in SOURCE_KEYS[..i] && p.1 in Members(m, p.0)) || (p.0 == key && p.1 in Members(m, key) - todo)
        decreases |todo|
      {
        var ticker :| ticker in todo;
        var current := CurrentIdentity(ticker, links);
        if current.None? {
          return None;
        }
        if !Cyclic(links) { MergedMore(u, links, done, key, ticker); }
        u := u[current.value := (if current.value in u then u[current.value] else {}) + {key}];
        done := done + {(key, ticker)};
        todo := todo - {ticker};
      }
      assert SOURCE_KEYS[..i + 1] == SOURCE_KEYS[..i] + [key];
    }
    result := Some(u - hidden);
    if !Cyclic(links) { MergedIsUniverse(u, m, links, hidden, done); }
  }

  lemma NothingMerged(links: Links)
    requires !Cyclic(links)
    ensures Merged(map[], links, {})
  {
  }

  lemma MergedIsUniverse(u: Universe, m: Memberships, links: Links, hidden: set<Symbol>, done: set<(SourceKey, Symbol)>)
    requires !Cyclic(links) && Merged(u, links, done)
    requires forall p: (SourceKey, Symbol) :: p in done <==> p.0 in SOURCE_KEYS[..|SOURCE_KEYS|] && p.1 in Members(m,
        p.0)
    ensures IsUniverse(u - hidden, m, links, hidden)
  {
    hide Cyclic, Ends;
    forall key: SourceKey ensures key in SOURCE_KEYS[..|SOURCE_KEYS|] {
      assert SOURCE_KEYS[..|SOURCE_KEYS|] == SOURCE_KEYS;
      match key {
        case ManualLists => assert SOURCE_KEYS[0] == key;
        case PortfolioOpen => assert SOURCE_KEYS[1] == key;
        case SaAlphaPicksCurrent => assert SOURCE_KEYS[2] == key;
        case SaAlphaPicksFormer => assert SOURCE_KEYS[3] == key;
        case LegacyConfigSeed => assert SOURCE_KEYS[4] == key;
      }
    }
    forall t, key
      ensures Contributes(m, links, key, t) <==> exists s :: (key, s) in done && Current(links, s) == t
    {
      if s :| s in Members(m, key) && Current(links, s) == t {
        assert (key, s) in done;
      }
    }
    forall t ensures t in u <==> exists key :: Contributes(m, links, key, t) {
      if t in u {
        var p :| p in done && Current(links, p.1) == t;
        assert p.1 in Members(m, p.0);
        assert Contributes(m, links, p.0, t);
      }
      if key :| Contributes(m, links, key, t) {
        var s :| (key, s) in done && Current(links, s) == t;
        assert (key, s).1 == s;
      }
    }
  }

  datatype Snapshot = Unavailable | Snapshot(universe: Universe)

  /** Reading the links, then building the universe through them. */
  method BuildSnapshot(rows: seq<LinkRow>, upper: string -> string, m: Memberships, hidden: set<Symbol>)
    returns (s: Snapshot, ghost links: Links)
    ensures s.Unavailable? <==> !Acceptable(ReadAll(rows, upper))
    ensures s.Snapshot? ==> Represents(links, ReadAll(rows, upper)) && !Cyclic(links)
                            && IsUniverse(s.universe, m, links, hidden)
  {
    hide Cyclic, Represents, Acceptable, IsUniverse;
    links := map[];
    var found := ReadLinks(rows, upper);
    if found.None? {
      return Unavailable, links;
    }
    links := found.value;
    var u := BuildUniverse(m, found.value, hidden);
    s := Snapshot(u.value);
  }
}
