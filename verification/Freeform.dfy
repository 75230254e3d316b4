/** The bounds on caller-chosen source and metadata. */
module Freeform {
  import opened Sequences

  const MAX_SOURCE := 256
  const MAX_KEYS := 64
  const MAX_KEY := 128
  const MAX_VALUE := 2048
  const MAX_TOTAL := 16384.0

  ghost function Lengths(metadata: map<string, string>): string -> real {
    (k: string) => if k in metadata then (|k| + |metadata[k]|) as real else 0.0
  }

  /** Keys and values, each within its own bound and within the common one. */
  ghost predicate FreeformOk(source: string, metadata: map<string, string>) {
    && |source| <= MAX_SOURCE && |metadata| <= MAX_KEYS
    && (forall k :: k in metadata ==> |k| <= MAX_KEY && |metadata[k]| <= MAX_VALUE)
    && SumOver(Lengths(metadata), metadata.Keys) <= MAX_TOTAL
  }

  /** In numbers: a source of at most 256, at most 64 keys of at most 128 each with values of at most 2048,
      and at most 16384 over all keys and values together. */
  lemma FreeformExact(source: string, metadata: map<string, string>)
    ensures FreeformOk(source, metadata)
       <==> && |source| <= 256 && |metadata| <= 64
            && (forall k :: k in metadata ==> |k| <= 128 && |metadata[k]| <= 2048)
            && SumOver((k: string) => if k in metadata then (|k| + |metadata[k]|) as real else 0.0, metadata.Keys) <= 16384.0
  {
    SumOverEqual(Lengths(metadata), (k: string) => if k in metadata then (|k| + |metadata[k]|) as real else 0.0, metadata.Keys);
  }

  lemma NothingIsFine()
    ensures FreeformOk("", map[])
  {
    SumOverZero(Lengths(map[]), {});
  }

  lemma OneField(k: string, v: string)
    requires |k| <= MAX_KEY && |v| <= MAX_VALUE
    ensures FreeformOk("", map[k := v])
  {
    var m := map[k := v];
    assert m.Keys == {k};
    SumOverTakes(Lengths(m), {k}, k);
    assert {k} - {k} == {};
    SumOverZero(Lengths(m), {});
  }

  /** validateFreeformFields, visiting the metadata in any order. */
  method ValidateFreeformFields(source: string, metadata: map<string, string>) returns (ok: bool)
    ensures ok <==> FreeformOk(source, metadata)
  {
    if |source| > MAX_SOURCE || |metadata| > MAX_KEYS {
      return false;
    }
    var total, rest := 0, metadata.Keys;
    while rest != {}
      invariant rest <= metadata.Keys
      invariant forall k :: k in metadata && k !in rest ==> |k| <= MAX_KEY && |metadata[k]| <= MAX_VALUE
      invariant total as real + SumOver(Lengths(metadata), rest) == SumOver(Lengths(metadata), metadata.Keys)
      decreases |rest|
    {
      var k :| k in rest;
      if |k| > MAX_KEY || |metadata[k]| > MAX_VALUE {
        return false;
      }
      SumOverTakes(Lengths(metadata), rest, k);
      total := total + |k| + |metadata[k]|;
      rest := rest - {k};
    }
    return total as real <= MAX_TOTAL;
  }
}
