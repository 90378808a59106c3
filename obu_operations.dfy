/** The on-board unit's light-status codec (obu_operations.py): the table of the
    eight exterior-light states, the logical YANG envelope `returnYANGOutput`, the
    CORECONF encoder `returnCCOutput` that rewrites two leaves of a pre-compiled
    stencil in place, the client's decoding of the code leaf (clientcoap.py), and
    the choice of a status by index (`lightStatus`). */
module ObuOperations {
  import opened Wrappers
  import opened Coreconf
  import opened KeyFilter

  /** The one vehicle this unit answers for. */
  const CarName: string := "roadrunner"

  // ---------------------------------------------------------------------------
  // The status table
  // ---------------------------------------------------------------------------

  /** `bitToExteriorLightMap`: light-status code to light-status name. */
  const ExteriorLights: map<int, string> :=
    map[0 := "lowBeamHeadlightsOn",
        1 := "highBeamHeadlightsOn",
        2 := "leftTurnSignalOn",
        3 := "rightTurnSignalOn",
        4 := "daytimeRunningLightsOn",
        5 := "reverseLightOn",
        6 := "fogLightOn",
        7 := "parkingLightsOn"]

  /** The order in which iterating over the table yields its keys (insertion order). */
  const KeyOrder: seq<int> := [0, 1, 2, 3, 4, 5, 6, 7]

  // The four facts below are proved one lemma at a time: the solver cannot
  // take the whole table literal into one proof obligation within its budget.

  /** The codes are exactly 0..7. */
  lemma TableKeys()
    ensures forall k :: k in ExteriorLights <==> 0 <= k < 8
  {
  }

  /** `len(bitToExteriorLightMap)` is 8. */
  lemma TableSize()
    ensures |ExteriorLights| == 8
  {
    assert ExteriorLights.Keys == {0, 1, 2, 3, 4, 5, 6, 7};
  }

  /** No two codes share a name. */
  lemma TableInjective()
    ensures Injective(ExteriorLights)
  {
  }

  /** Iterating over the table visits each of its keys exactly once. */
  lemma KeyOrderCoversTable()
    ensures forall k :: k in KeyOrder <==> k in ExteriorLights
    ensures NoDuplicates(KeyOrder)
  {
  }

  /** The table maps exactly the codes 0..7, each to a different name, so it is a
      bijection between codes and names; iteration visits every key once. */
  lemma TableIsBijection()
    ensures forall k :: k in ExteriorLights <==> 0 <= k < 8
    ensures Injective(ExteriorLights)
    ensures |ExteriorLights| == 8
    ensures forall k :: k in KeyOrder <==> k in ExteriorLights
    ensures NoDuplicates(KeyOrder)
  {
    TableKeys();
    TableSize();
    TableInjective();
    KeyOrderCoversTable();
  }

  // ---------------------------------------------------------------------------
  // Reverse lookup: `filter(lambda key: table[key] == status, table)[0]`
  // ---------------------------------------------------------------------------

  /** The filter over the whole table finds at most one key: the values are distinct. */
  lemma AtMostOneMatch(status: string)
    ensures (KeyOrderCoversTable(); |FilterKeys(ExteriorLights, KeyOrder, status)| <= 1)
  {
    KeyOrderCoversTable();
    TableInjective();
    FilterAtMostOne(ExteriorLights, KeyOrder, status);
  }

  /** The code of a status name, or `None` where the source's `[0]` on the
      empty filter result raises `IndexError`. */
  function LookupCode(status: string): (code: Option<int>)
    ensures code.Some? <==> status in ExteriorLights.Values
    ensures forall k :: k in ExteriorLights && ExteriorLights[k] == status ==> code == Some(k)
  {
    TableIsBijection();
    var hits := FilterKeys(ExteriorLights, KeyOrder, status);
    if hits == [] then None
    else
      assert hits[0] in hits;
      Some(hits[0])
  }

  /** `lightStatus` with its random index passed in: `random.randint(0, len - 1)`
      only ever picks a key of the table, so the result is always a known status,
      and it encodes back to the index it came from. */
  function LightStatus(index: int): (status: string)
    requires 0 <= index <= |ExteriorLights| - 1
    ensures status in ExteriorLights.Values
    ensures LookupCode(status) == Some(index)
  {
    TableIsBijection();
    ExteriorLights[index]
  }

  // ---------------------------------------------------------------------------
  // The logical envelope `returnYANGOutput`
  // ---------------------------------------------------------------------------

  /** A JSON value, as far as the envelope needs one. */
  datatype Json = JInt(n: int) | JStr(s: string) | JObj(fields: map<string, Json>)

  /** The two leaves of the `carStatus` container. */
  datatype CarStatus = CarStatus(name: Json, exteriorLight: Json)

  function Field(j: Json, key: string): Option<Json> {
    if j.JObj? && key in j.fields then Some(j.fields[key]) else None
  }

  /** Reading the envelope back along the schema's path
      `["fetch"]["output"]["carStatus"]`; `None` where a member is missing. */
  function ReadCarStatus(j: Json): Option<CarStatus> {
    var fetch :- Field(j, "fetch");
    var output :- Field(fetch, "output");
    var carStatus :- Field(output, "carStatus");
    var name :- Field(carStatus, "name");
    var light :- Field(carStatus, "exteriorLight");
    Some(CarStatus(name, light))
  }

  /** Each object of the envelope holds exactly the members of the schema. */
  predicate IsEnvelope(j: Json) {
    && j.JObj? && j.fields.Keys == {"fetch"}
    && var fetch := j.fields["fetch"];
    && fetch.JObj? && fetch.fields.Keys == {"output"}
    && var output := fetch.fields["output"];
    && output.JObj? && output.fields.Keys == {"carStatus"}
    && var carStatus := output.fields["carStatus"];
    && carStatus.JObj? && carStatus.fields.Keys == {"name", "exteriorLight"}
  }

  /** `returnYANGOutput(status)`: the `fetch/output/carStatus` envelope naming
      the car and carrying `status` unchanged. */
  function YangOutput(status: Json): (envelope: Json)
    ensures IsEnvelope(envelope)
    ensures ReadCarStatus(envelope) == Some(CarStatus(JStr(CarName), status))
  {
    JObj(map["fetch" := JObj(map["output" := JObj(map["carStatus" := JObj(
      map["name" := JStr(CarName), "exteriorLight" := status])])])])
  }

  /** The converse: an envelope of the schema's shape that names the car is the
      one `YangOutput` builds for the status it carries. */
  lemma EnvelopeIsYangOutput(j: Json, status: Json)
    requires IsEnvelope(j) && ReadCarStatus(j) == Some(CarStatus(JStr(CarName), status))
    ensures j == YangOutput(status)
  {
    var fetch := j.fields["fetch"];
    var output := fetch.fields["output"];
    var carStatus := output.fields["carStatus"];
    assert carStatus.fields == map["name" := JStr(CarName), "exteriorLight" := status];
    assert output.fields == map["carStatus" := carStatus];
    assert fetch.fields == map["output" := output];
    assert j.fields == map["fetch" := fetch];
  }

  // ---------------------------------------------------------------------------
  // The CORECONF encoder `returnCCOutput` and the client-side decoder
  // ---------------------------------------------------------------------------

  /** SID paths of the compiled envelope: `fetch` (60001), `output`, `carStatus`,
      and inside it the `name` and `exteriorLight` leaves. */
  const CarStatusPath: seq<int> := [60001, 4, 1]
  const NamePath: seq<int> := [60001, 4, 1, 2]
  const CodePath: seq<int> := [60001, 4, 1, 1]

  /** The stencil as compiled from `returnYANGOutput(-1)`: the name leaf already
      holds the car's name and the code leaf the placeholder -1. */
  const Template: Node :=
    Map(map[60001 := Map(map[4 := Map(map[1 := Map(map[1 := Int(-1), 2 := Text(CarName)])])])])

  datatype EncodeError =
    | UnknownStatus             // the filter finds no key: `IndexError`
    | BadStencil(cause: PathError)  // the stencil lacks the `carStatus` map

  /** A map sits at `path` in `n`. */
  predicate IsMapAt(n: Node, path: seq<int>) {
    At(n, path).Some? && At(n, path).value.Map?
  }

  /** The value `returnCCOutput(stencil, status)` leaves in the stencil: the code
      is looked up first, then the name leaf and the code leaf are written. */
  function Encode(stencil: Node, status: string): (r: Result<Node, EncodeError>)
    ensures status !in ExteriorLights.Values ==> r == Failure(UnknownStatus)
    ensures r.Success? <==> status in ExteriorLights.Values && IsMapAt(stencil, CarStatusPath)
    ensures r.Success? ==> At(r.value, NamePath) == Some(Text(CarName))
    ensures r.Success? ==> forall k :: k in ExteriorLights && ExteriorLights[k] == status ==>
                             At(r.value, CodePath) == Some(Int(k))
  {
    assert Parent(NamePath) == CarStatusPath && Parent(CodePath) == CarStatusPath;
    match LookupCode(status)
    case None => Failure(UnknownStatus)
    case Some(code) =>
      match Assign(stencil, NamePath, Text(CarName))
      case Failure(e) => Failure(BadStencil(e))
      case Success(named) =>
        AssignFrame(stencil, NamePath, Text(CarName), CodePath);
        AssignFrame(stencil, NamePath, Text(CarName), CarStatusPath);
        var coded := Assign(named, CodePath, Int(code)).value;
        AssignFrame(named, CodePath, Int(code), NamePath);
        Success(coded)
  }

  datatype DecodeError =
    | MissingCode          // `output[60001][4][1][1]` raises
    | NotACode(leaf: Node) // the leaf is not a key of the table: `KeyError`

  /** clientcoap.py's reading of a response: the code leaf looked up in the table. */
  function Decode(output: Node): (r: Result<string, DecodeError>)
    ensures At(output, CodePath).None? ==> r == Failure(MissingCode)
    ensures r.Success? <==> At(output, CodePath).Some? && At(output, CodePath).value.Int?
                            && At(output, CodePath).value.value in ExteriorLights
    ensures r.Success? ==> r.value in ExteriorLights.Values
    ensures r.Success? ==> LookupCode(r.value) == Some(At(output, CodePath).value.value)
  {
    TableIsBijection();
    match At(output, CodePath)
    case None => Failure(MissingCode)
    case Some(leaf) =>
      if leaf.Int? && leaf.value in ExteriorLights then Success(ExteriorLights[leaf.value])
      else Failure(NotACode(leaf))
  }

  /** Round trip: whatever the stencil held before, decoding what the encoder
      wrote gives back the status. */
  lemma RoundTrip(stencil: Node, status: string)
    requires Encode(stencil, status).Success?
    ensures Decode(Encode(stencil, status).value) == Success(status)
  {
    var code := LookupCode(status).value;
    assert ExteriorLights[code] == status;
  }

  /** The encoder changes the two leaves and nothing else: every path unrelated
      to them reads as before, and the `carStatus` map is the old one with just
      the name and the code entries set. */
  lemma EncodeFrame(stencil: Node, status: string, q: seq<int>)
    requires Encode(stencil, status).Success?
    ensures Disjoint(q, NamePath) && Disjoint(q, CodePath) ==>
              At(Encode(stencil, status).value, q) == At(stencil, q)
    ensures At(Encode(stencil, status).value, CarStatusPath)
            == Some(Map(At(stencil, CarStatusPath).value.entries
                          [2 := Text(CarName)][1 := Int(LookupCode(status).value)]))
  {
    assert Parent(NamePath) == CarStatusPath && Parent(CodePath) == CarStatusPath;
    var code := LookupCode(status).value;
    var named := Assign(stencil, NamePath, Text(CarName)).value;
    var coded := Assign(named, CodePath, Int(code)).value;
    assert coded == Encode(stencil, status).value;
    AssignFrame(stencil, NamePath, Text(CarName), q);
    AssignFrame(named, CodePath, Int(code), q);
    AssignParent(stencil, NamePath, Text(CarName));
    AssignParent(named, CodePath, Int(code));
  }

  /** Last write wins: a second encode overwrites both leaves of the first one,
      so nothing of the first status survives, known status or not. */
  lemma EncodeLastWriteWins(stencil: Node, first: string, second: string)
    requires Encode(stencil, first).Success?
    ensures Encode(Encode(stencil, first).value, second) == Encode(stencil, second)
  {
    assert Parent(NamePath) == CarStatusPath && Parent(CodePath) == CarStatusPath;
    assert Disjoint(NamePath, CodePath);
    var name := Text(CarName);
    var named := Assign(stencil, NamePath, name).value;
    var once := Encode(stencil, first).value;
    if second in ExteriorLights.Values {
      var a := Int(LookupCode(first).value);
      var b := Int(LookupCode(second).value);
      assert once == Assign(named, CodePath, a).value;
      // writing the name again commutes past the first code write and is absorbed
      AssignCommute(named, CodePath, a, NamePath, name);
      AssignOverwrite(stencil, NamePath, name, name);
      assert Assign(once, NamePath, name) == Assign(named, CodePath, a);
      // the second code write replaces the first one
      AssignOverwrite(named, CodePath, a, b);
    }
  }

  /** Encoding the same status twice is the same as encoding it once. */
  lemma EncodeIdempotent(stencil: Node, status: string)
    requires Encode(stencil, status).Success?
    ensures Encode(Encode(stencil, status).value, status) == Encode(stencil, status)
  {
    EncodeLastWriteWins(stencil, status, status);
  }

  /** The compiled stencil accepts every status of the table, and the client
      decodes each one back. */
  lemma TemplateServesEveryStatus(status: string)
    requires status in ExteriorLights.Values
    ensures Encode(Template, status).Success?
    ensures Decode(Encode(Template, status).value) == Success(status)
  {
    TemplateShape();
    RoundTrip(Template, status);
  }

  /** The compiled stencil has the `carStatus` map, and its code leaf holds the
      placeholder -1, which is no status: an unwritten stencil never decodes. */
  lemma TemplateShape()
    ensures IsMapAt(Template, CarStatusPath)
    ensures Decode(Template) == Failure(NotACode(Int(-1)))
  {
  }

  /** The binary and the JSON answers agree: for any status the server picks,
      the CoAP client decodes the same name the REST envelope carries. */
  lemma TransportsAgree(index: int)
    requires 0 <= index <= |ExteriorLights| - 1
    ensures Encode(Template, LightStatus(index)).Success?
    ensures ReadCarStatus(YangOutput(JStr(LightStatus(index)))).Some?
    ensures JStr(Decode(Encode(Template, LightStatus(index)).value).value)
            == ReadCarStatus(YangOutput(JStr(LightStatus(index)))).value.exteriorLight
  {
    TemplateServesEveryStatus(LightStatus(index));
  }

  // ---------------------------------------------------------------------------
  // The shared stencil that `returnCCOutput` mutates in place
  // ---------------------------------------------------------------------------

  /** The decoded stencil the CoAP server compiles once and hands to every call. */
  class Stencil {
    var payload: Node

    constructor (compiled: Node)
      ensures payload == compiled
    {
      payload := compiled;
    }

    /** `returnCCOutput(self, status)`: look up the code, write the name leaf,
        write the code leaf, and return the same object.  On an unknown status
        or a stencil without the `carStatus` map nothing is written. */
    method ReturnCCOutput(status: string) returns (r: Result<Stencil, EncodeError>)
      modifies this
      ensures Encode(old(payload), status).Success? ==>
                r == Success(this) && payload == Encode(old(payload), status).value
      ensures Encode(old(payload), status).Failure? ==>
                r == Failure(Encode(old(payload), status).error) && payload == old(payload)
      ensures r.Success? ==> Decode(payload) == Success(status)
    {
      var code := LookupCode(status);
      if code.None? {
        return Failure(UnknownStatus);
      }
      var named := Assign(payload, NamePath, Text(CarName));
      if named.Failure? {
        return Failure(BadStencil(named.error));
      }
      ghost var before := payload;
      payload := named.value;
      AssignFrame(before, NamePath, Text(CarName), CarStatusPath);
      assert Parent(CodePath) == CarStatusPath;
      payload := Assign(payload, CodePath, Int(code.value)).value;
      RoundTrip(before, status);
      r := Success(this);
    }
  }
}
