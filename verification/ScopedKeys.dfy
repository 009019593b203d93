/**
  The scoped idempotency key `identity:key` and its two columns
  (apps/backend/src/modules/gateway/infrastructure/postgres-idempotency.store.ts:143-150).
 */
module ScopedKeys {
  datatype Parts = Parts(identity: string, rawKey: string) | ScopedKeyRequired

  /** `indexOf(':')` */
  function FirstColon(value: string): (i: int)
    ensures -1 <= i < |value|
    ensures i == -1 ==> ':' !in value
    ensures i >= 0 ==> value[i] == ':' && ':' !in value[..i]
  {
    if value == [] then -1
    else if value[0] == ':' then 0
    else
      var rest := FirstColon(value[1..]);
      assert value == [value[0]] + value[1..];
      assert rest >= 0 ==> value[..rest + 1] == [value[0]] + value[1..][..rest];
      if rest == -1 then -1 else rest + 1
  }

  function Split(value: string): Parts {
    var separator := FirstColon(value);
    if separator < 1 || separator == |value| - 1 then ScopedKeyRequired
    else Parts(value[..separator], value[separator + 1..])
  }

  /** Two keys share their columns only if they are the same key, and every pair of columns a key can have is reached. */
  lemma SplitIsFaithful(value: string, identity: string, rawKey: string)
    ensures Split(value) == Parts(identity, rawKey)
            <==> identity != "" && ':' !in identity && rawKey != "" && value == identity + ":" + rawKey
  {
    if identity != "" && ':' !in identity && rawKey != "" && value == identity + ":" + rawKey {
      ColonAfter(identity, rawKey);
      assert value[..|identity|] == identity && value[|identity| + 1..] == rawKey;
    }
    var separator := FirstColon(value);
    if separator >= 0 {
      assert value == value[..separator] + ":" + value[separator + 1..];
    }
  }

  lemma {:induction false} ColonAfter(identity: string, rawKey: string)
    requires ':' !in identity
    ensures FirstColon(identity + ":" + rawKey) == |identity|
  {
    var value := identity + ":" + rawKey;
    if identity != "" {
      assert value[0] == identity[0];
      assert identity[0] in identity;
      assert value[1..] == identity[1..] + ":" + rawKey;
      ColonAfter(identity[1..], rawKey);
    }
  }
}
