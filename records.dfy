/**
 * Plain JavaScript objects as used by `giveId` and by the `mapFromArray`
 * example in src/sample.tsx. A record holds only an object's own enumerable
 * string-keyed properties; prototypes, inherited and non-enumerable
 * properties and symbol keys are not represented, so reading a property the
 * record lacks gives `undefined`.
 */
module Records {

  /** The JavaScript values the examples store; numbers are integers here. */
  datatype Value = Undefined | Num(n: int) | Str(s: string) | Bool(b: bool)

  type Record = map<string, Value>

  /** The property read `obj[name]`, for a property that is not inherited. */
  function Field(obj: Record, name: string): (v: Value)
    ensures name !in obj ==> v == Undefined
  {
    if name in obj then obj[name] else Undefined
  }

  /** The fixed string every object receives as its `id`. */
  const IdText: string := "本当はランダムがいいけどここではただの文字列"

  /** `giveId(obj)`, the object spread `{ ...obj, id }`: a copy of `obj`
      whose `id` is IdText, whatever `obj` held there before. */
  function GiveId(obj: Record): (r: Record)
    ensures "id" in r && r["id"] == Str(IdText)
    ensures r.Keys == obj.Keys + {"id"}
    ensures forall name :: name in obj && name != "id" ==> r[name] == obj[name]
  {
    obj["id" := Str(IdText)]
  }

  /** Read through property access: only `id` differs from the input. */
  lemma GiveIdFields(obj: Record, name: string)
    ensures Field(GiveId(obj), name) == if name == "id" then Str(IdText) else Field(obj, name)
  {
  }

  /** The input's own `id`, if any, has no influence on the result. */
  lemma GiveIdIgnoresInputId(obj: Record, v: Value)
    ensures GiveId(obj) == GiveId(obj - {"id"})
    ensures GiveId(obj) == GiveId(obj["id" := v])
  {
  }

  /** Giving an id twice is the same as giving it once. */
  lemma GiveIdIdempotent(obj: Record)
    ensures GiveId(GiveId(obj)) == GiveId(obj)
  {
  }

  /** The two calls in the source: `{ foo: 123 }`, and `{ num: 0, id: 100 }`
      whose numeric id is replaced by the string. */
  lemma GiveIdExamples()
    ensures GiveId(map["foo" := Num(123)]) == map["foo" := Num(123), "id" := Str(IdText)]
    ensures GiveId(map["num" := Num(0), "id" := Num(100)]) == map["num" := Num(0), "id" := Str(IdText)]
  {
  }
}
