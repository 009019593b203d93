/**
  Double-entry postings and their balance check
  (apps/backend/src/modules/ledger/domain/posting.ts).
 */
module Postings {
  import opened Decimals

  datatype Direction = DebitSide | CreditSide

  /** The id `posting-${number}`; ids differ exactly when their numbers do. */
  datatype PostingId = PostingId(number: nat)

  datatype Posting = Posting(
    id: PostingId, operationId: string, accountId: string, assetId: string, amount: Decimal, direction: Direction)

  function Opposite(d: Direction): Direction {
    if d == DebitSide then CreditSide else DebitSide
  }

  /** The total posted on one side of one asset. */
  ghost function Side(ps: seq<Posting>, asset: string, direction: Direction): real {
    if |ps| == 0 then 0.0
    else
      var p := ps[|ps| - 1];
      Side(ps[..|ps| - 1], asset, direction)
      + (if p.assetId == asset && p.direction == direction then Value(p.amount) else 0.0)
  }

  /** Debits equal credits in every asset. */
  ghost predicate Balanced(ps: seq<Posting>) {
    forall asset :: Side(ps, asset, DebitSide) == Side(ps, asset, CreditSide)
  }

  /** The journal's postings of one operation. */
  function ByOperation(ps: seq<Posting>, op: string): seq<Posting> {
    if |ps| == 0 then []
    else ByOperation(ps[..|ps| - 1], op) + (if ps[|ps| - 1].operationId == op then [ps[|ps| - 1]] else [])
  }

  datatype Totals = Totals(debit: Decimal, credit: Decimal)

  lemma {:induction false} AbsentAsset(ps: seq<Posting>, asset: string, direction: Direction)
    requires forall p :: p in ps ==> p.assetId != asset
    ensures Side(ps, asset, direction) == 0.0
  {
    if |ps| > 0 {
      assert ps[|ps| - 1] in ps;
      AbsentAsset(ps[..|ps| - 1], asset, direction);
    }
  }

  /** `assertBalancedPostings`: true where the source returns, false where it throws. */
  method AssertBalanced(ps: seq<Posting>) returns (ok: bool)
    ensures ok <==> Balanced(ps)
  {
    hide Add, Compare;
    var totals: map<string, Totals> := map[];
    for i := 0 to |ps|
      invariant forall asset :: asset in totals ==>
                  Value(totals[asset].debit) == Side(ps[..i], asset, DebitSide)
                  && Value(totals[asset].credit) == Side(ps[..i], asset, CreditSide)
      invariant forall j :: 0 <= j < i ==> ps[j].assetId in totals
    {
      var p := ps[i];
      var prefix := ps[..i + 1];
      assert prefix[..i] == ps[..i] && prefix[i] == p;
      if p.assetId !in totals {
        AbsentAsset(ps[..i], p.assetId, DebitSide);
        AbsentAsset(ps[..i], p.assetId, CreditSide);
      }
      var total := if p.assetId in totals then totals[p.assetId] else Totals(ZERO, ZERO);
      if p.direction == DebitSide {
        total := total.(debit := Add(total.debit, p.amount));
      } else {
        total := total.(credit := Add(total.credit, p.amount));
      }
      totals := totals[p.assetId := total];
    }
    assert ps[..|ps|] == ps;
    forall asset | asset !in totals
      ensures Side(ps, asset, DebitSide) == Side(ps, asset, CreditSide)
    {
      AbsentAsset(ps, asset, DebitSide);
      AbsentAsset(ps, asset, CreditSide);
    }
    var rest := totals.Keys;
    while rest != {}
      invariant rest <= totals.Keys
      invariant forall asset :: asset in totals && asset !in rest ==>
                  Side(ps, asset, DebitSide) == Side(ps, asset, CreditSide)
      decreases rest
    {
      var asset :| asset in rest;
      if Compare(totals[asset].debit, totals[asset].credit) != 0 {
        return false;
      }
      rest := rest - {asset};
    }
    return true;
  }
}
