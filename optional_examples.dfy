/** The expectations of src/test/Optionals/Optional.test.ts, restated over a small
    model of JavaScript values. */
module OptionalExamples {
  import opened Optionals
  import opened OptionalLaws

  /** The JavaScript values the tests use; an object maps property names to
      values that may themselves be `null` or `undefined`. */
  datatype JsValue =
    | JsBool(b: bool)
    | JsNumber(n: int)
    | JsString(s: string)
    | JsObject(props: map<string, Stored<JsValue>>)
    | JsArray(items: seq<Stored<JsValue>>)

  /** JavaScript truthiness, which presence deliberately ignores. */
  predicate Truthy(x: Stored<JsValue>) {
    match x
    case Null => false
    case Undefined => false
    case Val(JsBool(b)) => b
    case Val(JsNumber(n)) => n != 0
    case Val(JsString(s)) => s != ""
    case Val(_) => true
  }

  /** Property access `j.key`: `undefined` for a missing property. */
  function Prop(j: JsValue, key: string): (r: Stored<JsValue>) {
    if j.JsObject? && key in j.props then j.props[key] else Undefined
  }

  /** The mapper `p => p.key`. */
  function Field(key: string): (mapper: JsValue -> Stored<JsValue>) {
    (j: JsValue) => Prop(j, key)
  }

  /** Values that are falsy in JavaScript are still present, and `null` and
      `undefined` are not (test lines 133-188). */
  lemma FalsyValuesArePresent()
    ensures forall j: JsValue :: IsPresent(From(Val(j))) && !IsNotPresent(From(Val(j)))
    ensures !Truthy(Val(JsBool(false))) && !Truthy(Val(JsNumber(0))) && !Truthy(Val(JsString("")))
    ensures !IsPresent(From<JsValue>(Null)) && !IsPresent(From<JsValue>(Undefined))
    ensures IsNotPresent(From<JsValue>(Null)) && IsNotPresent(From<JsValue>(Undefined))
  {
  }

  /** `ifPresent` calls its function with `''` and `false`, and never for
      `null`, `undefined` or the empty container (test lines 22-51, 101-102). */
  lemma IfPresentExamples()
    ensures IfPresent(From(Val(JsString("")))) == [Applied(JsString(""))]
    ensures IfPresent(From(Val(JsBool(false)))) == [Applied(JsBool(false))]
    ensures IfPresent(From<JsValue>(Null)) == [] && IfPresent(From<JsValue>(Undefined)) == []
    ensures IfPresent(Empty<JsValue>()) == []
    ensures IfPresentOrElse(From(Val(JsNumber(123)))) == [Applied(JsNumber(123))]
    ensures IfPresentOrElse(From<JsValue>(Undefined)) == [Invoked]
    ensures IfPresentOrElse(Empty<JsValue>()) == [Invoked]
  {
  }

  /** `from(null).get()` and `empty().get()` are `null`; `from(undefined).get()`
      stays `undefined` (test lines 111-112, 122-129). */
  lemma GetExamples()
    ensures Get(From(Val(JsString("flamboyant")))) == Val(JsString("flamboyant"))
    ensures Get(From<JsValue>(Null)) == Null && Get(Empty<JsValue>()) == Null
    ensures Get(From<JsValue>(Undefined)) == Undefined
  {
  }

  /** The father of the test person, with no `cpf` and no address. */
  const Pai: JsValue := JsObject(map["nome" := Val(JsString("Wilton")), "cpf" := Undefined, "endereco" := Undefined])

  /** The test person, with an address and a father. */
  const Pessoa: JsValue :=
    JsObject(map[
      "nome" := Val(JsString("Mateus")),
      "endereco" := Val(JsObject(map["cep" := Val(JsString("73062004"))])),
      "filiacao" := Val(JsObject(map["pai" := Val(Pai)]))])

  /** `from(pessoa).map(p => p.endereco).map(e => e.cep).get()` is the postal
      code, and the chain through the father's missing address is `null`
      (test lines 227-238, 251-252). */
  lemma MapChainExamples()
    ensures MapChain(From(Val(Pessoa)), [Val(Field("endereco")), Val(Field("cep"))]).result.Success?
    ensures Get(MapChain(From(Val(Pessoa)), [Val(Field("endereco")), Val(Field("cep"))]).result.value)
            == Val(JsString("73062004"))
    ensures MapChain(From(Val(Pessoa)), [Val(Field("filiacao")), Val(Field("pai")), Val(Field("endereco")), Val(Field("cep"))]).result.Success?
    ensures Get(MapChain(From(Val(Pessoa)), [Val(Field("filiacao")), Val(Field("pai")), Val(Field("endereco")), Val(Field("cep"))]).result.value)
            == Null
  {
  }

  /** The chain through the father's `undefined` cpf ends in `null`, and its last
      mapper (`cpf => cpf.toUpperCase()` in the test) is never called, whatever it
      does (test lines 239-245, 253). */
  lemma MapChainSkipsLastMapper(upper: JsValue -> Stored<JsValue>)
    ensures MapChain(From(Val(Pessoa)), [Val(Field("filiacao")), Val(Field("pai")), Val(Field("cpf")), Val(upper)]).result.Success?
    ensures Get(MapChain(From(Val(Pessoa)), [Val(Field("filiacao")), Val(Field("pai")), Val(Field("cpf")), Val(upper)]).result.value)
            == Null
    ensures |MapChain(From(Val(Pessoa)), [Val(Field("filiacao")), Val(Field("pai")), Val(Field("cpf")), Val(upper)]).calls| == 3
  {
    var p1 := Map(From(Val(Pessoa)), Val(Field("filiacao"))).value;
    var p2 := Map(p1.result, Val(Field("pai"))).value;
    assert Get(p2.result) == Val(Pai);
    var p3 := Map(p2.result, Val(Field("cpf"))).value;
    assert Get(p3.result) == Undefined;
    var rest: seq<Stored<JsValue -> Stored<JsValue>>> := [Val(upper)];
    AbsentChainStaysAbsent(p3.result, rest);
    assert MapChain(p2.result, [Val(Field("cpf")), Val(upper)]) == Traced(Success(Empty()), p3.calls + []);
    assert MapChain(p1.result, [Val(Field("pai")), Val(Field("cpf")), Val(upper)]).result.Success?;
  }

  /** The person of the `orElse` and `orElseGet` tests: a name and an address, no age. */
  const PessoaComEndereco: JsValue :=
    JsObject(map[
      "endereco" := Val(JsObject(map["cep" := Val(JsString("11111")), "numero" := Val(JsString("22"))])),
      "nome" := Val(JsString("test"))])

  /** `orElse` and `orElseGet` fall back for the missing age and keep the
      present name, without calling the supplier for it (test lines 269-285, 300-316). */
  lemma OrElseExamples()
    ensures OrElse(Map(From(Val(PessoaComEndereco)), Val(Field("idade"))).value.result, JsNumber(22)) == JsNumber(22)
    ensures OrElse(Map(From(Val(PessoaComEndereco)), Val(Field("nome"))).value.result, JsString("outro nome")) == JsString("test")
    ensures OrElseGet(Map(From(Val(PessoaComEndereco)), Val(Field("idade"))).value.result, () => JsNumber(22))
            == Traced(JsNumber(22), [Invoked])
    ensures OrElseGet(Map(From(Val(PessoaComEndereco)), Val(Field("nome"))).value.result, () => JsString("outro nome"))
            == Traced(JsString("test"), [])
  {
  }
}
