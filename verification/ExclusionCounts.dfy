/** Reference counts of exclusion routes, and the bags of keys that configurations hold in them. */
module ExclusionCounts {
  import opened Addresses
  import opened InterfaceConfigs

  type Counts = map<IpAddress, int>

  function Count(m: Counts, p: IpAddress): int {
    if p in m then m[p] else 0
  }

  ghost predicate Positive(m: Counts) {
    forall p :: p in m ==> m[p] >= 1
  }

  /** The counts are the multiplicities of the bag. */
  ghost predicate Tallies(m: Counts, bag: multiset<IpAddress>) {
    forall p :: Count(m, p) == bag[p]
  }

  /** The keys the entries are added under, with multiplicity. */
  ghost function TextBag(qt: Parsers, entries: seq<string>): multiset<IpAddress> {
    if entries == [] then multiset{}
    else TextBag(qt, entries[..|entries| - 1]) + multiset{FromText(qt, entries[|entries| - 1])}
  }

  /** The part of the bag that comes from plain host addresses. */
  ghost function PlainBag(qt: Parsers, entries: seq<string>): multiset<IpAddress> {
    if entries == [] then multiset{}
    else
      PlainBag(qt, entries[..|entries| - 1])
      + (var s := entries[|entries| - 1];
         if Plain(qt, s) then multiset{FromText(qt, s)} else multiset{})
  }

  /** The part of the bag that comes from every other entry. */
  ghost function StrayBag(qt: Parsers, entries: seq<string>): multiset<IpAddress> {
    if entries == [] then multiset{}
    else
      StrayBag(qt, entries[..|entries| - 1])
      + (var s := entries[|entries| - 1];
         if Plain(qt, s) then multiset{} else multiset{FromText(qt, s)})
  }

  lemma {:induction false} BagSplits(qt: Parsers, entries: seq<string>)
    ensures TextBag(qt, entries) == PlainBag(qt, entries) + StrayBag(qt, entries)
  {
    if entries == [] {
    } else {
      BagSplits(qt, entries[..|entries| - 1]);
    }
  }

  /** No entry is stray exactly when every entry is a plain host address. */
  lemma {:induction false} NoStrayExactlyWhenAllPlain(qt: Parsers, entries: seq<string>)
    ensures StrayBag(qt, entries) == multiset{} <==> forall s :: s in entries ==> Plain(qt, s)
  {
    if entries == [] {
    } else {
      var init, last := entries[..|entries| - 1], entries[|entries| - 1];
      NoStrayExactlyWhenAllPlain(qt, init);
      assert entries == init + [last];
      if !Plain(qt, last) {
        assert FromText(qt, last) in StrayBag(qt, entries);
      } else {
        assert StrayBag(qt, entries) == StrayBag(qt, init);
      }
    }
  }

  lemma {:induction false} NullKeyNotPlain(qt: Parsers, entries: seq<string>)
    requires Lawful(qt)
    ensures NULL_KEY !in PlainBag(qt, entries) && NULL_KEY !in TextBag(qt, entries)
  {
    if entries == [] {
    } else {
      NullKeyNotPlain(qt, entries[..|entries| - 1]);
      KeysAgreeExactlyWhenPlain(qt, entries[|entries| - 1]);
    }
  }

  /** The bags of a longer prefix of the entries. */
  lemma BagsStep(qt: Parsers, entries: seq<string>, i: nat)
    requires i < |entries|
    ensures TextBag(qt, entries[..i + 1]) == TextBag(qt, entries[..i]) + multiset{FromText(qt, entries[i])}
    ensures PlainBag(qt, entries[..i + 1]) == PlainBag(qt, entries[..i])
            + if Plain(qt, entries[i]) then multiset{FromText(qt, entries[i])} else multiset{}
    ensures StrayBag(qt, entries[..i + 1]) == StrayBag(qt, entries[..i])
            + if Plain(qt, entries[i]) then multiset{} else multiset{FromText(qt, entries[i])}
  {
    assert entries[..i + 1][..i] == entries[..i];
  }

  lemma {:induction false} PlainBagGrows(qt: Parsers, entries: seq<string>, i: nat)
    requires i <= |entries|
    ensures PlainBag(qt, entries[..i]) <= PlainBag(qt, entries)
    decreases |entries| - i
  {
    if i == |entries| {
      assert entries[..i] == entries;
    } else {
      BagsStep(qt, entries, i);
      PlainBagGrows(qt, entries, i + 1);
    }
  }

  /** One more or one fewer reference to a prefix; a prefix with none left is forgotten. */
  function Raise(m: Counts, p: IpAddress): Counts {
    m[p := Count(m, p) + 1]
  }

  function Lower(m: Counts, p: IpAddress): Counts {
    if Count(m, p) > 1 then m[p := m[p] - 1] else m - {p}
  }

  /** All entries of a configuration raised under their text keys. */
  ghost function RaiseAll(m: Counts, qt: Parsers, entries: seq<string>): Counts {
    if entries == [] then m
    else Raise(RaiseAll(m, qt, entries[..|entries| - 1]), FromText(qt, entries[|entries| - 1]))
  }

  /** All entries of a configuration lowered under their host keys. */
  ghost function LowerAll(m: Counts, qt: Parsers, entries: seq<string>): Counts {
    if entries == [] then m
    else Lower(LowerAll(m, qt, entries[..|entries| - 1]), HostKey(qt, entries[|entries| - 1]))
  }

  /** How often lowering all entries meets a prefix that is not counted. */
  ghost function Misses(m: Counts, qt: Parsers, entries: seq<string>): nat {
    if entries == [] then 0
    else
      var init := entries[..|entries| - 1];
      Misses(m, qt, init)
      + if HostKey(qt, entries[|entries| - 1]) in LowerAll(m, qt, init) then 0 else 1
  }

  lemma {:induction false} RaiseAllCounts(m: Counts, qt: Parsers, entries: seq<string>, p: IpAddress)
    ensures Count(RaiseAll(m, qt, entries), p) == Count(m, p) + TextBag(qt, entries)[p]
  {
    if entries == [] {
    } else {
      RaiseAllCounts(m, qt, entries[..|entries| - 1], p);
    }
  }

  lemma {:induction false} LowerAllKeeps(m: Counts, qt: Parsers, entries: seq<string>)
    requires Positive(m) && NULL_KEY !in m
    ensures Positive(LowerAll(m, qt, entries)) && NULL_KEY !in LowerAll(m, qt, entries)
  {
    if entries == [] {
    } else {
      LowerAllKeeps(m, qt, entries[..|entries| - 1]);
    }
  }

  /** Lowering gives back exactly the plain entries' references, whatever is counted besides. */
  lemma {:induction false} LowerAllCounts(m: Counts, qt: Parsers, entries: seq<string>, p: IpAddress)
    requires Lawful(qt) && NULL_KEY !in m && Positive(m)
    requires Count(m, p) >= PlainBag(qt, entries)[p]
    ensures Count(LowerAll(m, qt, entries), p) == Count(m, p) - PlainBag(qt, entries)[p]
  {
    if entries == [] {
    } else {
      LowerAllKeeps(m, qt, entries[..|entries| - 1]);
      LowerAllCounts(m, qt, entries[..|entries| - 1], p);
      KeysAgreeExactlyWhenPlain(qt, entries[|entries| - 1]);
    }
  }

  ghost predicate Covers(m: Counts, qt: Parsers, entries: seq<string>) {
    forall p :: Count(m, p) >= PlainBag(qt, entries)[p]
  }

  /** The counts cover the plain entries: then the misses are exactly the stray entries. */
  lemma {:induction false} MissesAreStrays(m: Counts, qt: Parsers, entries: seq<string>)
    requires Lawful(qt) && NULL_KEY !in m && Positive(m) && Covers(m, qt, entries)
    ensures Misses(m, qt, entries) == |StrayBag(qt, entries)|
  {
    if entries == [] {
    } else {
      var init, last := entries[..|entries| - 1], entries[|entries| - 1];
      assert PlainBag(qt, init) <= PlainBag(qt, entries);
      assert Covers(m, qt, init) by {
        forall p
          ensures Count(m, p) >= PlainBag(qt, init)[p]
        {
          assert PlainBag(qt, init)[p] <= PlainBag(qt, entries)[p];
        }
      }
      MissesAreStrays(m, qt, init);
      KeysAgreeExactlyWhenPlain(qt, last);
      var key := HostKey(qt, last);
      if Plain(qt, last) {
        assert PlainBag(qt, entries)[key] == PlainBag(qt, init)[key] + 1 <= Count(m, key);
        LowerAllCounts(m, qt, init, key);
        assert StrayBag(qt, entries) == StrayBag(qt, init);
      } else {
        LowerAllKeeps(m, qt, init);
        assert |StrayBag(qt, entries)| == |StrayBag(qt, init)| + 1;
      }
    }
  }

  /** No prefix of `kept` is on its last reference when lowering the entries comes to it. */
  ghost predicate Survives(m: Counts, qt: Parsers, entries: seq<string>, kept: set<IpAddress>) {
    forall i :: 0 <= i < |entries| && HostKey(qt, entries[i]) in kept ==>
      Count(LowerAll(m, qt, entries[..i]), HostKey(qt, entries[i])) > 1
  }

  lemma MoreReferencesSurvive(m: Counts, qt: Parsers, entries: seq<string>, kept: set<IpAddress>)
    requires Lawful(qt) && NULL_KEY !in m && Positive(m) && NULL_KEY !in kept
    requires forall p :: p in kept ==> Count(m, p) > PlainBag(qt, entries)[p]
    ensures Survives(m, qt, entries, kept)
  {
    forall i | 0 <= i < |entries| && HostKey(qt, entries[i]) in kept
      ensures Count(LowerAll(m, qt, entries[..i]), HostKey(qt, entries[i])) > 1
    {
      var key := HostKey(qt, entries[i]);
      KeysAgreeExactlyWhenPlain(qt, entries[i]);
      BagsStep(qt, entries, i);
      PlainBagGrows(qt, entries, i + 1);
      assert PlainBag(qt, entries[..i + 1])[key] == PlainBag(qt, entries[..i])[key] + 1;
      LowerAllCounts(m, qt, entries[..i], key);
    }
  }

  lemma LowerAllStep(m: Counts, qt: Parsers, entries: seq<string>, i: nat)
    requires i < |entries|
    ensures RaiseAll(m, qt, entries[..i + 1]) == Raise(RaiseAll(m, qt, entries[..i]), FromText(qt, entries[i]))
    ensures LowerAll(m, qt, entries[..i + 1]) == Lower(LowerAll(m, qt, entries[..i]), HostKey(qt, entries[i]))
    ensures Misses(m, qt, entries[..i + 1]) == Misses(m, qt, entries[..i])
            + if HostKey(qt, entries[i]) in LowerAll(m, qt, entries[..i]) then 0 else 1
  {
    assert entries[..i + 1][..i] == entries[..i];
  }

  lemma RaisedTally(m: Counts, qt: Parsers, entries: seq<string>, bag: multiset<IpAddress>)
    requires Tallies(m, bag)
    ensures Tallies(RaiseAll(m, qt, entries), bag + TextBag(qt, entries))
  {
    forall p
      ensures Count(RaiseAll(m, qt, entries), p) == (bag + TextBag(qt, entries))[p]
    {
      RaiseAllCounts(m, qt, entries, p);
    }
  }

  /** Lowering a configuration whose keys are all in the tally leaves the rest and its stray keys. */
  lemma LoweredTally(m: Counts, qt: Parsers, entries: seq<string>, rest: multiset<IpAddress>)
    requires Lawful(qt) && NULL_KEY !in m && Positive(m)
    requires Tallies(m, rest + TextBag(qt, entries))
    ensures Misses(m, qt, entries) == |StrayBag(qt, entries)|
    ensures Tallies(LowerAll(m, qt, entries), rest + StrayBag(qt, entries))
  {
    BagSplits(qt, entries);
    forall p
      ensures Count(m, p) >= PlainBag(qt, entries)[p]
      ensures Count(LowerAll(m, qt, entries), p) == (rest + StrayBag(qt, entries))[p]
    {
      assert Count(m, p) == (rest + TextBag(qt, entries))[p];
      LowerAllCounts(m, qt, entries, p);
    }
    MissesAreStrays(m, qt, entries);
  }

  /** Whatever is in the rest stays referenced while the configuration is lowered. */
  lemma RestSurvives(m: Counts, qt: Parsers, entries: seq<string>, rest: multiset<IpAddress>, kept: set<IpAddress>)
    requires Lawful(qt) && NULL_KEY !in m && Positive(m)
    requires Tallies(m, rest + TextBag(qt, entries))
    requires forall p :: p in kept ==> p in rest
    ensures Survives(m, qt, entries, kept)
  {
    BagSplits(qt, entries);
    forall p | p in kept
      ensures Count(m, p) > PlainBag(qt, entries)[p]
    {
      assert Count(m, p) == (rest + TextBag(qt, entries))[p];
    }
    assert Count(m, NULL_KEY) == (rest + TextBag(qt, entries))[NULL_KEY];
    MoreReferencesSurvive(m, qt, entries, kept);
  }

  /** An excluded subnet is counted under one key and given back under another: raising and then
      lowering it leaves its count raised and trips the assertion once. */
  lemma SubnetIsNeverGivenBack(m: Counts, qt: Parsers)
    requires Lawful(qt) && Positive(m) && NULL_KEY !in m
    ensures var subnet := ["10.0.0.0/8"];
            && LowerAll(RaiseAll(m, qt, subnet), qt, subnet) == Raise(m, FromText(qt, subnet[0]))
            && Misses(RaiseAll(m, qt, subnet), qt, subnet) == 1
  {
    var subnet := ["10.0.0.0/8"];
    assert subnet[0][8] == '/';
    KeysAgreeExactlyWhenPlain(qt, subnet[0]);
    assert subnet[..|subnet| - 1] == [];
    assert RaiseAll(m, qt, []) == m;
    var raised := RaiseAll(m, qt, subnet);
    assert raised == Raise(m, FromText(qt, subnet[0]));
    assert LowerAll(raised, qt, subnet) == Lower(raised, NULL_KEY) == raised;
  }
}
