/**
  The text keys `${accountId}:${assetId}` of the balance map, and the listing that takes them apart
  (ledger.ts, `key` and `listBalanceAssetIds`).
 */
module LedgerKeys {
  import opened LedgerSpec

  /** Account ids without a colon make the text key as good as the pair. */
  lemma KeyInjective(a: AccountId, x: AssetId, b: AccountId, y: AssetId)
    requires ':' !in a && ':' !in b
    ensures Key(a, x) == Key(b, y) <==> a == b && x == y
  {
    KeyCollisions(a, x, b, y);
    ShiftNeedsColon(a, x, b, y);
    ShiftNeedsColon(b, y, a, x);
  }

  lemma ShiftNeedsColon(shorter: AccountId, x: AssetId, longer: AccountId, y: AssetId)
    ensures Shifted(shorter, x, longer, y) ==> ':' in longer
  {
    if Shifted(shorter, x, longer, y) {
      var middle :| longer == shorter + ":" + middle && x == middle + ":" + y;
      assert longer[|shorter|] == ':';
    }
  }

  lemma ColonPosition(a: AccountId, x: AssetId)
    ensures |Key(a, x)| == |a| + 1 + |x| && Key(a, x)[|a|] == ':'
    ensures forall i :: 0 <= i < |a| ==> Key(a, x)[i] == a[i]
  {
  }

  /** Within one asset the key always tells accounts apart. */
  lemma KeyWithinAsset(a: AccountId, b: AccountId, x: AssetId)
    ensures Key(a, x) == Key(b, x) <==> a == b
  {
    if Key(a, x) == Key(b, x) {
      assert |a| == |b|;
      assert Key(a, x)[..|a|] == a && Key(b, x)[..|b|] == b;
    }
  }

  /** `shorter` and x collide with `longer` and y by moving text across the colon. */
  ghost predicate Shifted(shorter: AccountId, x: AssetId, longer: AccountId, y: AssetId) {
    exists middle: string :: longer == shorter + ":" + middle && x == middle + ":" + y
  }

  /** With colons allowed, these are all the collisions there are. */
  lemma KeyCollisions(a: AccountId, x: AssetId, b: AccountId, y: AssetId)
    ensures Key(a, x) == Key(b, y) <==> (a == b && x == y) || Shifted(a, x, b, y) || Shifted(b, y, a, x)
  {
    if Key(a, x) == Key(b, y) {
      if |a| <= |b| {
        SameKeyShorter(a, x, b, y);
      } else {
        SameKeyShorter(b, y, a, x);
      }
    }
    if Shifted(a, x, b, y) {
      ShiftedCollides(a, x, b, y);
    }
    if Shifted(b, y, a, x) {
      ShiftedCollides(b, y, a, x);
    }
  }

  lemma ShiftedCollides(a: AccountId, x: AssetId, b: AccountId, y: AssetId)
    requires Shifted(a, x, b, y)
    ensures Key(a, x) == Key(b, y)
  {
    var middle :| b == a + ":" + middle && x == middle + ":" + y;
    assert Key(a, x) == a + ":" + middle + ":" + y;
  }

  lemma SameKeyShorter(a: AccountId, x: AssetId, b: AccountId, y: AssetId)
    requires Key(a, x) == Key(b, y) && |a| <= |b|
    ensures (a == b && x == y) || Shifted(a, x, b, y)
  {
    var k := Key(a, x);
    ColonPosition(a, x);
    ColonPosition(b, y);
    assert k[..|a|] == a && k[|a| + 1..] == x && k[..|b|] == b && k[|b| + 1..] == y;
    if |a| < |b| {
      var middle := k[|a| + 1..|b|];
      assert b == a + ":" + middle;
      assert x == middle + ":" + y;
    }
  }

  function KeysOf(openings: seq<(AccountId, AssetId)>): (keys: seq<string>)
    ensures |keys| == |openings|
    ensures forall i :: 0 <= i < |openings| ==> keys[i] == Key(openings[i].0, openings[i].1)
  {
    seq(|openings|, i requires 0 <= i < |openings| => Key(openings[i].0, openings[i].1))
  }

  lemma KeysExtend(openings: seq<(AccountId, AssetId)>, pair: (AccountId, AssetId))
    ensures KeysOf(openings + [pair]) == KeysOf(openings) + [Key(pair.0, pair.1)]
  {
  }

  /** Keys that start with the prefix, in order, each with the prefix removed. */
  function WithPrefixCut(keys: seq<string>, prefix: string): seq<string> {
    if |keys| == 0 then []
    else
      var last := keys[|keys| - 1];
      WithPrefixCut(keys[..|keys| - 1], prefix) + (if prefix <= last then [last[|prefix|..]] else [])
  }

  lemma CutOneMore(keys: seq<string>, i: nat, prefix: string)
    requires i < |keys|
    ensures WithPrefixCut(keys[..i + 1], prefix)
            == WithPrefixCut(keys[..i], prefix) + (if prefix <= keys[i] then [keys[i][|prefix|..]] else [])
  {
    assert keys[..i + 1][..i] == keys[..i];
  }

  /** The order Array.prototype.sort uses on strings: by character codes, a prefix first. */
  predicate AtMost(a: string, b: string) {
    |a| == 0 || (|b| > 0 && (a[0] < b[0] || (a[0] == b[0] && AtMost(a[1..], b[1..]))))
  }

  function Insert(s: string, sorted: seq<string>): seq<string> {
    if |sorted| == 0 || AtMost(s, sorted[0]) then [s] + sorted else [sorted[0]] + Insert(s, sorted[1..])
  }

  /** The built-in sort. */
  function Sorted(s: seq<string>): seq<string> {
    if |s| == 0 then [] else Insert(s[0], Sorted(s[1..]))
  }

  function Listing(openings: seq<(AccountId, AssetId)>, account: AccountId): seq<AssetId> {
    Sorted(WithPrefixCut(KeysOf(openings), account + ":"))
  }

  // ---- The listing ----

  lemma {:induction false} AtMostTotal(a: string, b: string)
    ensures AtMost(a, b) || AtMost(b, a)
  {
    if |a| > 0 && |b| > 0 {
      AtMostTotal(a[1..], b[1..]);
    }
  }

  lemma {:induction false} AtMostTransitive(a: string, b: string, c: string)
    requires AtMost(a, b) && AtMost(b, c)
    ensures AtMost(a, c)
  {
    if |a| > 0 && a[0] == b[0] && b[0] == c[0] {
      AtMostTransitive(a[1..], b[1..], c[1..]);
    }
  }

  ghost predicate Ascending(s: seq<string>) {
    forall i, j :: 0 <= i < j < |s| ==> AtMost(s[i], s[j])
  }

  lemma {:induction false} InsertKeepsOrder(s: string, sorted: seq<string>)
    requires Ascending(sorted)
    ensures Ascending(Insert(s, sorted)) && multiset(Insert(s, sorted)) == multiset{s} + multiset(sorted)
  {
    if |sorted| == 0 {
    } else if AtMost(s, sorted[0]) {
      forall j | 0 <= j < |sorted|
        ensures AtMost(s, sorted[j])
      {
        if j > 0 {
          AtMostTransitive(s, sorted[0], sorted[j]);
        }
      }
    } else {
      AtMostTotal(s, sorted[0]);
      assert sorted == [sorted[0]] + sorted[1..];
      InsertKeepsOrder(s, sorted[1..]);
      var rest := Insert(s, sorted[1..]);
      forall j | 0 <= j < |rest|
        ensures AtMost(sorted[0], rest[j])
      {
        assert rest[j] in multiset(rest);
        if rest[j] != s {
          assert rest[j] in sorted[1..];
        }
      }
    }
  }

  /** The built-in sort orders and keeps every element. */
  lemma {:induction false} SortedSorts(s: seq<string>)
    ensures Ascending(Sorted(s)) && multiset(Sorted(s)) == multiset(s)
  {
    if |s| > 0 {
      SortedSorts(s[1..]);
      InsertKeepsOrder(s[0], Sorted(s[1..]));
      assert s == [s[0]] + s[1..];
    }
  }

  /** The assets opened for one account, in the order they were opened. */
  function AssetsOf(openings: seq<(AccountId, AssetId)>, account: AccountId): seq<AssetId> {
    if |openings| == 0 then []
    else
      var last := openings[|openings| - 1];
      AssetsOf(openings[..|openings| - 1], account) + (if last.0 == account then [last.1] else [])
  }

  /** Another account's balance, kept under a key that reads as one of this account. */
  predicate Mistaken(account: AccountId, opening: (AccountId, AssetId)) {
    opening.0 != account && account + ":" <= Key(opening.0, opening.1)
  }

  /** What such keys are read as, in the order they were opened. */
  function MisreadAs(openings: seq<(AccountId, AssetId)>, account: AccountId): seq<AssetId> {
    if |openings| == 0 then []
    else
      var last := openings[|openings| - 1];
      MisreadAs(openings[..|openings| - 1], account)
      + if Mistaken(account, last) then [Key(last.0, last.1)[|account| + 1..]] else []
  }

  lemma {:induction false} NothingMisreadIff(openings: seq<(AccountId, AssetId)>, account: AccountId)
    ensures MisreadAs(openings, account) == [] <==> forall i :: 0 <= i < |openings| ==> !Mistaken(account, openings[i])
  {
    if |openings| > 0 {
      NothingMisreadIff(openings[..|openings| - 1], account);
    }
  }

  lemma {:induction false} CutIsOwnAndMisread(openings: seq<(AccountId, AssetId)>, account: AccountId)
    ensures multiset(WithPrefixCut(KeysOf(openings), account + ":"))
            == multiset(AssetsOf(openings, account)) + multiset(MisreadAs(openings, account))
  {
    if |openings| > 0 {
      var init, last := openings[..|openings| - 1], openings[|openings| - 1];
      CutIsOwnAndMisread(init, account);
      var shown := CutLast(openings, account);
      MoreOnOneSide(WithPrefixCut(KeysOf(init), account + ":"), AssetsOf(init, account), MisreadAs(init, account), shown,
                    last.0 == account);
    }
  }

  /** What the last opening adds to the listing, to the account's own assets and to the misread ones. */
  lemma CutLast(openings: seq<(AccountId, AssetId)>, account: AccountId) returns (shown: seq<AssetId>)
    requires |openings| > 0
    ensures var init, own := openings[..|openings| - 1], openings[|openings| - 1].0 == account;
            && WithPrefixCut(KeysOf(openings), account + ":") == WithPrefixCut(KeysOf(init), account + ":") + shown
            && AssetsOf(openings, account) == AssetsOf(init, account) + (if own then shown else [])
            && MisreadAs(openings, account) == MisreadAs(init, account) + (if own then [] else shown)
  {
    var n := |openings| - 1;
    var key := Key(openings[n].0, openings[n].1);
    assert KeysOf(openings)[..n] == KeysOf(openings[..n]);
    OwnKey(account, openings[n].1);
    shown := if account + ":" <= key then [key[|account| + 1..]] else [];
  }

  lemma MoreOnOneSide<T>(all: seq<T>, left: seq<T>, right: seq<T>, more: seq<T>, toLeft: bool)
    requires multiset(all) == multiset(left) + multiset(right)
    ensures multiset(all + more)
            == multiset(left + if toLeft then more else []) + multiset(right + if toLeft then [] else more)
  {
    assert left + [] == left && right + [] == right;
  }

  lemma OwnKey(account: AccountId, asset: AssetId)
    ensures account + ":" <= Key(account, asset) && Key(account, asset)[|account| + 1..] == asset
  {
  }

  lemma PrefixMeansAccount(account: AccountId, other: AccountId, asset: AssetId)
    requires ':' !in account && ':' !in other
    ensures account + ":" <= Key(other, asset) <==> account == other
  {
    var key, prefix := Key(other, asset), account + ":";
    if prefix <= key {
      var rest := key[|prefix|..];
      assert key == Key(account, rest) by {
        assert key == prefix + rest;
      }
      KeyInjective(account, rest, other, asset);
    }
  }

  /**
    `listBalanceAssetIds` in every ledger, colons or not: sorted, it lists the assets
    opened for the account and what the keys of other accounts are misread as; so it is
    exact if and only if no other account's key starts with this account's prefix.
   */
  lemma ListingIsOwnAndMisread(openings: seq<(AccountId, AssetId)>, account: AccountId)
    ensures Ascending(Listing(openings, account))
    ensures multiset(Listing(openings, account)) == multiset(AssetsOf(openings, account)) + multiset(MisreadAs(openings, account))
    ensures multiset(Listing(openings, account)) == multiset(AssetsOf(openings, account))
            <==> forall i :: 0 <= i < |openings| && openings[i].0 != account ==>
                   !(account + ":" <= Key(openings[i].0, openings[i].1))
  {
    CutIsOwnAndMisread(openings, account);
    SortedSorts(WithPrefixCut(KeysOf(openings), account + ":"));
    NothingMisreadIff(openings, account);
    var misread := MisreadAs(openings, account);
    assert misread != [] ==> misread[0] in multiset(misread);
  }

  /** In particular, where account ids have no colon the listing is exact. */
  lemma ListingIsExact(openings: seq<(AccountId, AssetId)>, account: AccountId)
    requires ':' !in account
    requires forall i :: 0 <= i < |openings| ==> ':' !in openings[i].0
    ensures Ascending(Listing(openings, account))
    ensures multiset(Listing(openings, account)) == multiset(AssetsOf(openings, account))
  {
    ListingIsOwnAndMisread(openings, account);
    forall i | 0 <= i < |openings|
      ensures account + ":" <= Key(openings[i].0, openings[i].1) <==> account == openings[i].0
    {
      PrefixMeansAccount(account, openings[i].0, openings[i].1);
    }
  }

  /** With a colon in an account id the listing can show an asset the account never opened. */
  lemma ListingMisreadsColons()
    ensures Listing([("a:b", "c")], "a") == ["b:c"] && AssetsOf([("a:b", "c")], "a") == []
  {
    var openings := [("a:b", "c")];
    var keys := KeysOf(openings);
    assert Key("a:b", "c") == "a:b:c";
    assert keys == ["a:b:c"] && keys[..0] == [] && openings[..0] == [];
    assert "a" + ":" == "a:" && "a:" <= "a:b:c" && "a:b:c"[2..] == "b:c";
    assert WithPrefixCut(keys[..0], "a:") == [];
    assert WithPrefixCut(keys, "a:") == ["b:c"];
    assert Sorted(["b:c"]) == ["b:c"];
  }
}
