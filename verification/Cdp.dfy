/** The CDP tables (cdpdb.cpp): a primary table, totals for every coin pair and three indexes that have to
    stay in step with it. The tables are the views of the layered caches. */
module Cdps {
  import opened Options

  /** Ids, owners and coin pairs, by their rank in their order. */
  datatype Name = Name(rank: nat)

  /** IneryUserCDP. `pair` is the coin pair. */
  datatype Cdp = Cdp(id: Name, owner: Name, pair: Name, height: nat, ratioBase: real, staked: nat, owed: nat)

  datatype Totals = Totals(staked: nat, owed: nat)

  /** Key of the ratio index: within a pair, low ratios first, then low heights. */
  datatype RatioKey = RatioKey(pair: Name, ratio: nat, height: nat, id: Name)
  datatype HeightKey = HeightKey(pair: Name, height: nat, id: Name)
  datatype UserKey = UserKey(owner: Name, pair: Name)

  const WORD := 0x1_0000_0000_0000_0000

  function HeightKeyOf(c: Cdp): HeightKey { HeightKey(c.pair, c.height, c.id) }
  function UserKeyOf(c: Cdp): UserKey { UserKey(c.owner, c.pair) }

  /** The scaled ratio of a CDP: any function of it (the code multiplies in floating point). */
  type Ratio = Cdp -> nat

  function RatioKeyOf(ratio: Ratio, c: Cdp): RatioKey { RatioKey(c.pair, ratio(c), c.height, c.id) }

  type Table = map<Name, Cdp>

  // ---------------------------------------------------------------- totals

  function AddTotals(t: Totals, c: Cdp): Totals { Totals((t.staked + c.staked) % WORD, (t.owed + c.owed) % WORD) }

  /** uint64_t subtraction. */
  function SubTotals(t: Totals, c: Cdp): Totals {
    Totals((t.staked - c.staked) % WORD, (t.owed - c.owed) % WORD)
  }

  /** What the CDPs of a pair add up to. */
  ghost function Sum(cdps: Table, pair: Name): Totals {
    if cdps == map[] then Totals(0, 0)
    else
      var id :| id in cdps;
      var rest := Sum(cdps - {id}, pair);
      if cdps[id].pair == pair then Totals(rest.staked + cdps[id].staked, rest.owed + cdps[id].owed) else rest
  }

  lemma {:induction false} SumWithout(cdps: Table, pair: Name, id: Name)
    requires id in cdps
    ensures var rest := Sum(cdps - {id}, pair);
      Sum(cdps, pair) ==
      if cdps[id].pair == pair then Totals(rest.staked + cdps[id].staked, rest.owed + cdps[id].owed) else rest
  {
    var first :| first in cdps && Sum(cdps, pair) ==
      var rest := Sum(cdps - {first}, pair);
      if cdps[first].pair == pair then Totals(rest.staked + cdps[first].staked, rest.owed + cdps[first].owed) else rest;
    if first != id {
      SumWithout(cdps - {first}, pair, id);
      SumWithout(cdps - {id}, pair, first);
      assert cdps - {first} - {id} == cdps - {id} - {first};
    }
  }

  /** The stored totals are the sums, in 64-bit arithmetic. */
  ghost predicate TotalsMatch(t: Totals, sum: Totals) {
    t == Totals(sum.staked % 0x1_0000_0000_0000_0000, sum.owed % 0x1_0000_0000_0000_0000)
  }

  lemma AddMatches(t: Totals, cdps: Table, c: Cdp)
    requires TotalsMatch(t, Sum(cdps, c.pair)) && c.id !in cdps
    ensures TotalsMatch(AddTotals(t, c), Sum(cdps[c.id := c], c.pair))
  {
    SumWithout(cdps[c.id := c], c.pair, c.id);
    assert cdps[c.id := c] - {c.id} == cdps;
    hide Sum;
    AddMod(Sum(cdps, c.pair).staked, c.staked);
    AddMod(Sum(cdps, c.pair).owed, c.owed);
  }

  lemma AddMod(a: nat, b: nat)
    ensures (a % WORD + b) % WORD == (a + b) % WORD
  {
    assert a + b == a % WORD + b + WORD * (a / WORD);
  }

  lemma SubMatches(t: Totals, cdps: Table, c: Cdp)
    requires c.id in cdps && cdps[c.id] == c && TotalsMatch(t, Sum(cdps, c.pair))
    ensures TotalsMatch(SubTotals(t, c), Sum(cdps - {c.id}, c.pair))
  {
    SumWithout(cdps, c.pair, c.id);
    SubMod(Sum(cdps - {c.id}, c.pair).staked, c.staked);
    SubMod(Sum(cdps - {c.id}, c.pair).owed, c.owed);
  }

  lemma SubMod(a: nat, b: nat)
    ensures ((a + b) % WORD - b) % WORD == a % WORD
  {
    var q := (a + b) / WORD;
    assert (a + b) % WORD - b == a - WORD * q;
    assert (a - WORD * q) % WORD == a % WORD;
  }

  lemma OtherPair(cdps: Table, c: Cdp, pair: Name)
    requires c.pair != pair
    ensures c.id !in cdps ==> Sum(cdps[c.id := c], pair) == Sum(cdps, pair)
    ensures c.id in cdps && cdps[c.id].pair != pair ==> Sum(cdps - {c.id}, pair) == Sum(cdps, pair)
  {
    if c.id !in cdps {
      SumWithout(cdps[c.id := c], pair, c.id);
      assert cdps[c.id := c] - {c.id} == cdps;
    } else {
      SumWithout(cdps, pair, c.id);
    }
  }

  // ---------------------------------------------------------------- what the tables keep

  ghost predicate TableOK(cdps: Table) {
    && (forall id :: id in cdps ==> cdps[id].id == id)
    && (forall i, j :: i in cdps && j in cdps && UserKeyOf(cdps[i]) == UserKeyOf(cdps[j]) ==> i == j)
  }

  ghost predicate GlobalsOK(cdps: Table, globals: map<Name, Totals>) {
    forall pair: Name :: TotalsMatch(GlobalOf(globals, pair), Sum(cdps, pair))
  }

  /** GetCdpGlobalData: an absent record reads as zeros. */
  function GlobalOf(globals: map<Name, Totals>, pair: Name): Totals {
    if pair in globals then globals[pair] else Totals(0, 0)
  }

  ghost predicate RatioIndexOK(ratio: Ratio, cdps: Table, index: map<RatioKey, Cdp>) {
    && (forall id :: id in cdps ==> RatioKeyOf(ratio, cdps[id]) in index)
    && (forall k :: k in index ==> k.id in cdps && cdps[k.id] == index[k] && k == RatioKeyOf(ratio, index[k]))
  }

  ghost predicate HeightIndexOK(cdps: Table, index: map<HeightKey, Cdp>) {
    && (forall id :: id in cdps ==> HeightKeyOf(cdps[id]) in index)
    && (forall k :: k in index ==> k.id in cdps && cdps[k.id] == index[k] && k == HeightKeyOf(index[k]))
  }

  ghost predicate UserIndexOK(cdps: Table, index: map<UserKey, Name>) {
    && (forall id :: id in cdps ==> UserKeyOf(cdps[id]) in index)
    && (forall k :: k in index ==> index[k] in cdps && k == UserKeyOf(cdps[index[k]]))
  }

  /** The ratio index holds exactly one right entry for every CDP. */
  lemma OneEntryEach(ratio: Ratio, cdps: Table, index: map<RatioKey, Cdp>, c: Cdp)
    requires TableOK(cdps) && RatioIndexOK(ratio, cdps, index)
    ensures var k := RatioKey(c.pair, ratio(c), c.height, c.id);
      c in cdps.Values <==> k in index && index[k] == c
    ensures |index| == |cdps|
  {
    if c in cdps.Values {
      var id :| id in cdps && cdps[id] == c;
      assert RatioKeyOf(ratio, c) in index;
    }
    var keyOf := (c: Cdp) => RatioKeyOf(ratio, c);
    assert index.Keys == set id | id in cdps.Keys :: keyOf(cdps[id]);
    SizeOfImage(cdps, keyOf, cdps.Keys);
  }

  /** So does the height index. */
  lemma OneHeightEntryEach(cdps: Table, index: map<HeightKey, Cdp>, c: Cdp)
    requires TableOK(cdps) && HeightIndexOK(cdps, index)
    ensures var k := HeightKey(c.pair, c.height, c.id);
      c in cdps.Values <==> k in index && index[k] == c
    ensures |index| == |cdps|
  {
    if c in cdps.Values {
      var id :| id in cdps && cdps[id] == c;
      assert HeightKeyOf(c) in index;
    }
    var keyOf := (c: Cdp) => HeightKeyOf(c);
    assert index.Keys == set id | id in cdps.Keys :: keyOf(cdps[id]);
    SizeOfImage(cdps, keyOf, cdps.Keys);
  }

  /** And the table of owners and pairs names every CDP exactly once. */
  lemma OneUserEntryEach(cdps: Table, index: map<UserKey, Name>, c: Cdp)
    requires TableOK(cdps) && UserIndexOK(cdps, index)
    ensures var k := UserKey(c.owner, c.pair);
      c in cdps.Values <==> c.id in cdps && cdps[c.id] == c && k in index && index[k] == c.id
    ensures forall k, m :: k in index && m in index && index[k] == index[m] ==> k == m
    ensures |index| == |cdps|
  {
    if c in cdps.Values {
      var id :| id in cdps && cdps[id] == c;
      assert UserKeyOf(c) in index && cdps[index[UserKeyOf(c)]].id == index[UserKeyOf(c)];
    }
    var keyOf := (c: Cdp) => UserKeyOf(c);
    assert index.Keys == set id | id in cdps.Keys :: keyOf(cdps[id]);
    SizeOfImage(cdps, keyOf, cdps.Keys);
  }

  /** Different CDPs have different keys, so there are as many keys as CDPs. */
  lemma {:induction false} SizeOfImage<K>(cdps: Table, keyOf: Cdp -> K, ids: set<Name>)
    requires ids <= cdps.Keys
    requires forall i, j :: i in cdps && j in cdps && keyOf(cdps[i]) == keyOf(cdps[j]) ==> i == j
    ensures |set id | id in ids :: keyOf(cdps[id])| == |ids|
  {
    if ids != {} {
      var x :| x in ids;
      SizeOfImage(cdps, keyOf, ids - {x});
      var rest := set id | id in ids - {x} :: keyOf(cdps[id]);
      assert (set id | id in ids :: keyOf(cdps[id])) == rest + {keyOf(cdps[x])};
      assert keyOf(cdps[x]) !in rest;
    }
  }

  // ---------------------------------------------------------------- the tables

  class CdpStore {
    const ratio: Ratio
    var cdps: Table                            // cdp_cache
    var userCdps: map<UserKey, Name>            // user_cdp_cache
    var globals: map<Name, Totals>              // cdp_global_data_cache
    var ratioIndex: map<RatioKey, Cdp>         // cdp_ratio_index_cache
    var heightIndex: map<HeightKey, Cdp>       // cdp_height_index_cache

    ghost predicate Valid()
      reads this
    {
      && TableOK(cdps) && GlobalsOK(cdps, globals) && RatioIndexOK(ratio, cdps, ratioIndex)
      && HeightIndexOK(cdps, heightIndex) && UserIndexOK(cdps, userCdps)
    }

    constructor (ratio: Ratio)
      ensures Valid() && cdps == map[] && this.ratio == ratio
    {
      this.ratio := ratio;
      cdps, userCdps, globals, ratioIndex, heightIndex := map[], map[], map[], map[], map[];
    }

    /** A fresh id, and one CDP for each owner and pair. */
    method NewCDP(c: Cdp)
      requires Valid() && c.id !in cdps && UserKeyOf(c) !in userCdps
      modifies this
      ensures Valid() && cdps == old(cdps)[c.id := c]
    {
      hide TableOK, GlobalsOK, RatioIndexOK, HeightIndexOK, UserIndexOK, AddTotals;
      AddKeeps(ratio, cdps, globals, ratioIndex, heightIndex, userCdps, c);
      cdps := cdps[c.id := c];
      userCdps := userCdps[UserKeyOf(c) := c.id];
      SaveCdpIndexData(c);
    }

    /** `oldCDP` is what is stored. */
    method EraseCDP(oldCDP: Cdp, c: Cdp)
      requires Valid() && c.id in cdps && cdps[c.id] == oldCDP && UserKeyOf(c) == UserKeyOf(oldCDP)
      modifies this
      ensures Valid() && cdps == old(cdps) - {c.id}
    {
      hide TableOK, GlobalsOK, RatioIndexOK, HeightIndexOK, UserIndexOK, SubTotals;
      StoredId(cdps, c.id);
      RemoveKeeps(ratio, cdps, globals, ratioIndex, heightIndex, userCdps, oldCDP);
      cdps := cdps - {c.id};
      userCdps := userCdps - {UserKeyOf(c)};
      EraseCdpIndexData(oldCDP);
    }

    method UpdateCDP(oldCDP: Cdp, newCDP: Cdp)
      requires Valid() && newCDP.id in cdps && cdps[newCDP.id] == oldCDP && UserKeyOf(newCDP) == UserKeyOf(oldCDP)
      modifies this
      ensures Valid() && cdps == old(cdps)[newCDP.id := newCDP]
    {
      hide TableOK, GlobalsOK, RatioIndexOK, HeightIndexOK, UserIndexOK, AddTotals, SubTotals;
      UpdateKeeps(ratio, cdps, globals, ratioIndex, heightIndex, userCdps, oldCDP, newCDP);
      cdps := cdps[newCDP.id := newCDP];
      EraseCdpIndexData(oldCDP);
      SaveCdpIndexData(newCDP);
    }

    method SaveCdpIndexData(c: Cdp)
      modifies this`globals, this`ratioIndex, this`heightIndex
      ensures globals == old(globals)[c.pair := AddTotals(GlobalOf(old(globals), c.pair), c)]
      ensures ratioIndex == old(ratioIndex)[RatioKeyOf(ratio, c) := c]
      ensures heightIndex == old(heightIndex)[HeightKeyOf(c) := c]
    {
      globals := globals[c.pair := AddTotals(GlobalOf(globals, c.pair), c)];
      ratioIndex := ratioIndex[RatioKeyOf(ratio, c) := c];
      heightIndex := heightIndex[HeightKeyOf(c) := c];
    }

    method EraseCdpIndexData(c: Cdp)
      modifies this`globals, this`ratioIndex, this`heightIndex
      ensures globals == old(globals)[c.pair := SubTotals(GlobalOf(old(globals), c.pair), c)]
      ensures ratioIndex == old(ratioIndex) - {RatioKeyOf(ratio, c)}
      ensures heightIndex == old(heightIndex) - {HeightKeyOf(c)}
    {
      globals := globals[c.pair := SubTotals(GlobalOf(globals, c.pair), c)];
      ratioIndex := ratioIndex - {RatioKeyOf(ratio, c)};
      heightIndex := heightIndex - {HeightKeyOf(c)};
    }

    /** The CDPs of a pair with a ratio at or below the bound, lowest ratio first. */
    method GetCdpListByCollateralRatio(pair: Name, bound: nat) returns (list: seq<Cdp>)
      requires Valid()
      ensures forall c :: c in list <==> c in cdps.Values && c.pair == pair && ratio(c) <= bound
      ensures forall i, j :: 0 <= i < j < |list| ==>
                var c, d := list[i], list[j];
                || ratio(c) < ratio(d)
                || (ratio(c) == ratio(d) && (c.height < d.height || (c.height == d.height && c.id.rank < d.id.rank)))
    {
      list := [];
      hide HeightIndexOK, UserIndexOK, GlobalsOK, TableOK, RatioIndexOK;
      IndexKeys(ratio, cdps, ratioIndex);
      var rest := set k | k in ratioIndex && k.pair == pair;
      ghost var all := rest;
      assert all - rest == {};
      while rest != {}
        invariant rest <= all == (set k | k in ratioIndex && k.pair == pair)
        invariant ListedSoFar(ratio, ratioIndex, all - rest, rest, bound, list)
      {
        var k := LeastKey(rest);
        if k.ratio > bound {
          forall m | m in rest ensures m.ratio >= k.ratio { assert m == k || m in rest - {k}; }
          break;
        }
        ListNext(ratio, ratioIndex, all - rest, rest, bound, list, k);
        assert all - (rest - {k}) == all - rest + {k};
        list := list + [ratioIndex[k]];
        rest := rest - {k};
      }
      forall c ensures c in list <==> c in cdps.Values && c.pair == pair && ratio(c) <= bound {
        QueryExact(ratio, cdps, ratioIndex, pair, bound, all, rest, c);
      }
    }
  }

  lemma IndexKeys(ratio: Ratio, cdps: Table, index: map<RatioKey, Cdp>)
    requires RatioIndexOK(ratio, cdps, index)
    ensures forall k :: k in index ==> k == RatioKeyOf(ratio, index[k])
  {
  }

  /** `list` holds the entries of the keys in `done`, in their order, and all other keys come later. */
  ghost predicate ListedSoFar(ratio: Ratio, index: map<RatioKey, Cdp>, done: set<RatioKey>, rest: set<RatioKey>,
                              bound: nat, list: seq<Cdp>)
    requires done <= index.Keys
  {
    && (forall c :: c in list <==> exists k :: k in done && index[k] == c)
    && (forall k :: k in done ==> k.ratio <= bound && forall m :: m in rest ==> KeyLess(k, m))
    && (forall i :: 0 <= i < |list| ==> RatioKeyOf(ratio, list[i]) in done)
    && (forall i, j :: 0 <= i < j < |list| ==> KeyLess(RatioKeyOf(ratio, list[i]), RatioKeyOf(ratio, list[j])))
  }

  lemma ListNext(ratio: Ratio, index: map<RatioKey, Cdp>, done: set<RatioKey>, rest: set<RatioKey>,
                 bound: nat, list: seq<Cdp>, k: RatioKey)
    requires done <= index.Keys && ListedSoFar(ratio, index, done, rest, bound, list)
    requires k in rest && k in index && k == RatioKeyOf(ratio, index[k]) && k.ratio <= bound
    requires forall m :: m in rest - {k} ==> KeyLess(k, m)
    ensures ListedSoFar(ratio, index, done + {k}, rest - {k}, bound, list + [index[k]])
  {
    var list' := list + [index[k]];
    assert forall c :: c in list' <==> c in list || c == index[k];
    forall c ensures c in list' <==> exists m :: m in done + {k} && index[m] == c {
      if c == index[k] { assert k in done + {k} && c in list'; }
    }
  }

  /** The index keys passed before the bound belong to exactly the wanted CDPs. */
  lemma QueryExact(ratio: Ratio, cdps: Table, index: map<RatioKey, Cdp>, pair: Name, bound: nat,
                   all: set<RatioKey>, rest: set<RatioKey>, c: Cdp)
    requires TableOK(cdps) && RatioIndexOK(ratio, cdps, index)
    requires all == (set k | k in index && k.pair == pair) && rest <= all
    requires (forall k :: k in all - rest ==> k.ratio <= bound) && (forall k :: k in rest ==> k.ratio > bound)
    ensures (exists k :: k in all - rest && index[k] == c) <==> c in cdps.Values && c.pair == pair && ratio(c) <= bound
  {
    OneEntryEach(ratio, cdps, index, c);
    var k := RatioKeyOf(ratio, c);
    if c in cdps.Values && c.pair == pair && ratio(c) <= bound {
      assert k in all - rest;
    }
  }

  /** Order of the keys within a pair. */
  predicate KeyLess(a: RatioKey, b: RatioKey) {
    || a.ratio < b.ratio
    || (a.ratio == b.ratio && (a.height < b.height || (a.height == b.height && a.id.rank < b.id.rank)))
  }

  lemma KeysOrdered(a: RatioKey, b: RatioKey)
    requires a.pair == b.pair && a != b
    ensures KeyLess(a, b) || KeyLess(b, a)
  {
  }

  method LeastKey(keys: set<RatioKey>) returns (k: RatioKey)
    requires keys != {} && forall a, b :: a in keys && b in keys ==> a.pair == b.pair
    ensures k in keys && forall m :: m in keys - {k} ==> KeyLess(k, m)
  {
    k :| k in keys;
    var rest := keys - {k};
    while rest != {}
      invariant rest <= keys && k in keys && k !in rest
      invariant forall m :: m in keys - rest - {k} ==> KeyLess(k, m)
    {
      var m :| m in rest;
      assert m.pair == k.pair && m != k;
      KeysOrdered(k, m);
      ghost var was, before := k, keys - rest - {k};
      rest := rest - {m};
      if KeyLess(m, k) {
        k := m;
      }
      forall x | x in keys - rest - {k} ensures KeyLess(k, x) {
        assert x in before || x == was || x == m;
      }
    }
  }

  // ---------------------------------------------------------------- steps keep the tables in order

  lemma AddKeeps(ratio: Ratio, cdps: Table, globals: map<Name, Totals>, ratioIndex: map<RatioKey, Cdp>,
                 heightIndex: map<HeightKey, Cdp>, userCdps: map<UserKey, Name>, c: Cdp)
    requires TableOK(cdps) && GlobalsOK(cdps, globals) && RatioIndexOK(ratio, cdps, ratioIndex)
    requires HeightIndexOK(cdps, heightIndex) && UserIndexOK(cdps, userCdps)
    requires c.id !in cdps && UserKeyOf(c) !in userCdps
    ensures var cdps' := cdps[c.id := c];
      && TableOK(cdps') && GlobalsOK(cdps', globals[c.pair := AddTotals(GlobalOf(globals, c.pair), c)])
      && RatioIndexOK(ratio, cdps', ratioIndex[RatioKeyOf(ratio, c) := c])
      && HeightIndexOK(cdps', heightIndex[HeightKeyOf(c) := c])
      && UserIndexOK(cdps', userCdps[UserKeyOf(c) := c.id])
  {
    hide TableOK, GlobalsOK, RatioIndexOK, HeightIndexOK, UserIndexOK, AddTotals;
    AddKeepsGlobals(cdps, globals, c);
    AddKeepsTable(cdps, userCdps, c);
    AddKeepsRatio(ratio, cdps, ratioIndex, c);
    AddKeepsHeight(cdps, heightIndex, c);
  }

  lemma AddKeepsRatio(ratio: Ratio, cdps: Table, index: map<RatioKey, Cdp>, c: Cdp)
    requires TableOK(cdps) && RatioIndexOK(ratio, cdps, index) && c.id !in cdps
    ensures RatioIndexOK(ratio, cdps[c.id := c], index[RatioKeyOf(ratio, c) := c])
  {
  }

  lemma AddKeepsHeight(cdps: Table, index: map<HeightKey, Cdp>, c: Cdp)
    requires TableOK(cdps) && HeightIndexOK(cdps, index) && c.id !in cdps
    ensures HeightIndexOK(cdps[c.id := c], index[HeightKeyOf(c) := c])
  {
  }

  lemma AddKeepsGlobals(cdps: Table, globals: map<Name, Totals>, c: Cdp)
    requires GlobalsOK(cdps, globals) && c.id !in cdps
    ensures GlobalsOK(cdps[c.id := c], globals[c.pair := AddTotals(GlobalOf(globals, c.pair), c)])
  {
    hide TotalsMatch, AddTotals, Sum;
    var cdps', globals' := cdps[c.id := c], globals[c.pair := AddTotals(GlobalOf(globals, c.pair), c)];
    forall pair: Name ensures TotalsMatch(GlobalOf(globals', pair), Sum(cdps', pair)) {
      if pair == c.pair { AddMatches(GlobalOf(globals, c.pair), cdps, c); } else { OtherPair(cdps, c, pair); }
    }
  }

  lemma StoredId(cdps: Table, id: Name)
    requires TableOK(cdps) && id in cdps
    ensures cdps[id].id == id
  {
  }

  /** The user table names the CDP. */
  lemma UserEntry(cdps: Table, userCdps: map<UserKey, Name>, c: Cdp)
    requires TableOK(cdps) && UserIndexOK(cdps, userCdps) && c.id in cdps && cdps[c.id] == c
    ensures UserKeyOf(c) in userCdps && userCdps[UserKeyOf(c)] == c.id
  {
  }

  lemma AddKeepsTable(cdps: Table, userCdps: map<UserKey, Name>, c: Cdp)
    requires TableOK(cdps) && UserIndexOK(cdps, userCdps) && c.id !in cdps && UserKeyOf(c) !in userCdps
    ensures TableOK(cdps[c.id := c]) && UserIndexOK(cdps[c.id := c], userCdps[UserKeyOf(c) := c.id])
  {
  }

  lemma RemoveKeeps(ratio: Ratio, cdps: Table, globals: map<Name, Totals>, ratioIndex: map<RatioKey, Cdp>,
                    heightIndex: map<HeightKey, Cdp>, userCdps: map<UserKey, Name>, c: Cdp)
    requires TableOK(cdps) && GlobalsOK(cdps, globals) && RatioIndexOK(ratio, cdps, ratioIndex)
    requires HeightIndexOK(cdps, heightIndex) && UserIndexOK(cdps, userCdps)
    requires c.id in cdps && cdps[c.id] == c
    ensures var cdps' := cdps - {c.id};
      && TableOK(cdps') && GlobalsOK(cdps', globals[c.pair := SubTotals(GlobalOf(globals, c.pair), c)])
      && RatioIndexOK(ratio, cdps', ratioIndex - {RatioKeyOf(ratio, c)})
      && HeightIndexOK(cdps', heightIndex - {HeightKeyOf(c)})
      && UserIndexOK(cdps', userCdps - {UserKeyOf(c)})
  {
    hide TableOK, GlobalsOK, RatioIndexOK, HeightIndexOK, UserIndexOK, SubTotals;
    RemoveKeepsGlobals(cdps, globals, c);
    RemoveKeepsTable(cdps, userCdps, c);
    RemoveKeepsRatio(ratio, cdps, ratioIndex, c);
    RemoveKeepsHeight(cdps, heightIndex, c);
  }

  lemma RemoveKeepsRatio(ratio: Ratio, cdps: Table, index: map<RatioKey, Cdp>, c: Cdp)
    requires TableOK(cdps) && RatioIndexOK(ratio, cdps, index) && c.id in cdps && cdps[c.id] == c
    ensures RatioIndexOK(ratio, cdps - {c.id}, index - {RatioKeyOf(ratio, c)})
  {
  }

  lemma RemoveKeepsHeight(cdps: Table, index: map<HeightKey, Cdp>, c: Cdp)
    requires TableOK(cdps) && HeightIndexOK(cdps, index) && c.id in cdps && cdps[c.id] == c
    ensures HeightIndexOK(cdps - {c.id}, index - {HeightKeyOf(c)})
  {
  }

  lemma RemoveKeepsGlobals(cdps: Table, globals: map<Name, Totals>, c: Cdp)
    requires GlobalsOK(cdps, globals) && c.id in cdps && cdps[c.id] == c
    ensures GlobalsOK(cdps - {c.id}, globals[c.pair := SubTotals(GlobalOf(globals, c.pair), c)])
  {
    hide TotalsMatch, SubTotals, Sum;
    var cdps', globals' := cdps - {c.id}, globals[c.pair := SubTotals(GlobalOf(globals, c.pair), c)];
    forall pair ensures TotalsMatch(GlobalOf(globals', pair), Sum(cdps', pair)) {
      if pair == c.pair { SubMatches(GlobalOf(globals, c.pair), cdps, c); } else { OtherPair(cdps, c, pair); }
    }
  }

  lemma RemoveKeepsTable(cdps: Table, userCdps: map<UserKey, Name>, c: Cdp)
    requires TableOK(cdps) && UserIndexOK(cdps, userCdps) && c.id in cdps && cdps[c.id] == c
    ensures TableOK(cdps - {c.id}) && UserIndexOK(cdps - {c.id}, userCdps - {UserKeyOf(c)})
  {
  }

  /** Taking the old CDP out and putting the new one in. */
  lemma UpdateKeeps(ratio: Ratio, cdps: Table, globals: map<Name, Totals>, ratioIndex: map<RatioKey, Cdp>,
                    heightIndex: map<HeightKey, Cdp>, userCdps: map<UserKey, Name>, o: Cdp, c: Cdp)
    requires TableOK(cdps) && GlobalsOK(cdps, globals) && RatioIndexOK(ratio, cdps, ratioIndex)
    requires HeightIndexOK(cdps, heightIndex) && UserIndexOK(cdps, userCdps)
    requires c.id in cdps && cdps[c.id] == o && UserKeyOf(c) == UserKeyOf(o)
    ensures var cdps' := cdps[c.id := c];
      var globals1 := globals[o.pair := SubTotals(GlobalOf(globals, o.pair), o)];
      && TableOK(cdps') && GlobalsOK(cdps', globals1[c.pair := AddTotals(GlobalOf(globals1, c.pair), c)])
      && RatioIndexOK(ratio, cdps', (ratioIndex - {RatioKeyOf(ratio, o)})[RatioKeyOf(ratio, c) := c])
      && HeightIndexOK(cdps', (heightIndex - {HeightKeyOf(o)})[HeightKeyOf(c) := c])
      && UserIndexOK(cdps', userCdps)
  {
    hide TableOK, GlobalsOK, RatioIndexOK, HeightIndexOK, UserIndexOK, AddTotals, SubTotals, GlobalOf;
    StoredId(cdps, c.id);
    UserEntry(cdps, userCdps, o);
    RemoveKeeps(ratio, cdps, globals, ratioIndex, heightIndex, userCdps, o);
    var rest, users := cdps - {o.id}, userCdps - {UserKeyOf(o)};
    var globals1 := globals[o.pair := SubTotals(GlobalOf(globals, o.pair), o)];
    AddKeeps(ratio, rest, globals1, ratioIndex - {RatioKeyOf(ratio, o)}, heightIndex - {HeightKeyOf(o)}, users, c);
    PutBack(cdps, c.id, c);
    PutBack(userCdps, UserKeyOf(c), c.id);
  }

  lemma PutBack<K, V>(m: map<K, V>, k: K, v: V)
    ensures (m - {k})[k := v] == m[k := v]
    ensures k in m && m[k] == v ==> m[k := v] == m
  {
  }
}
