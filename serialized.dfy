/** The dictionaries the `serialize` methods build. */
module Serialized {
  import opened Formatting

  datatype Value = Str(s: string) | Int(i: int) | Obj(fields: map<string, Value>)

  function PayloadValue(payload: Payload): (v: Value)
    ensures v.Obj? && v.fields.Keys == payload.Keys
    ensures forall k :: k in payload ==> v.fields[k] == Str(payload[k])
  {
    Obj(map k | k in payload :: Str(payload[k]))
  }

  /** Distinct payloads serialize differently: the payload can be read back. */
  lemma PayloadValueIsInjective(p: Payload, q: Payload)
    requires PayloadValue(p) == PayloadValue(q)
    ensures p == q
  {
    forall k | k in p ensures p[k] == q[k] {
      assert PayloadValue(p).fields[k] == Str(p[k]);
      assert PayloadValue(q).fields[k] == Str(q[k]);
    }
  }
}
