/** The searcher section of an experiment configuration, and how the training
    harness reads the unit of a searcher's lengths out of it. */
module Config {
  import opened Wrappers

  /** The units a searcher length can be configured in. */
  datatype Unit = EPOCHS | RECORDS | BATCHES

  /** A parsed configuration value: the shapes a YAML/JSON experiment
      configuration can hold. Numbers are integers here. */
  datatype Json =
    | Null
    | Bool(b: bool)
    | Num(n: int)
    | Str(s: string)
    | Arr(items: seq<Json>)
    | Obj(fields: map<string, Json>)

  /** The only way reading the units can fail: the `searcher` entry exists
      but is not a mapping, so looking a key up in it is an attribute error. */
  datatype ParseError = SearcherNotAMapping

  /** Python truthiness of a configuration value: `None`, `False`, `0`, the
      empty string, the empty list and the empty mapping are falsy. */
  predicate Truthy(v: Json)
  {
    match v
    case Null => false
    case Bool(b) => b
    case Num(n) => n != 0
    case Str(s) => s != ""
    case Arr(items) => items != []
    case Obj(fields) => fields != map[]
  }

  /** `d.get(key)`: the value under `key`, or `None` when it is absent. */
  function Get(d: map<string, Json>, key: string): (v: Json)
    ensures key !in d ==> v == Null
    ensures key in d ==> v == d[key]
  {
    if key in d then d[key] else Null
  }

  /** Python's `a or b`: the first operand when it is truthy, else the second. */
  function Or(a: Json, b: Json): (v: Json)
    ensures Truthy(a) ==> v == a
    ensures !Truthy(a) ==> v == b
  {
    if Truthy(a) then a else b
  }

  /** The key spelled in a configuration for each unit. */
  function UnitKey(u: Unit): string
  {
    match u
    case RECORDS => "records"
    case EPOCHS => "epochs"
    case BATCHES => "batches"
  }

  /** Looking a key up in the literal table `{"records": ..., "epochs": ...,
      "batches": ...}`; any other key gives no unit. */
  function UnitForKey(key: string): (r: Option<Unit>)
    ensures r.Some? <==> key in {"records", "epochs", "batches"}
    ensures r.Some? ==> UnitKey(r.value) == key
  {
    if key == "records" then Some(RECORDS)
    else if key == "epochs" then Some(EPOCHS)
    else if key == "batches" then Some(BATCHES)
    else None
  }

  /** `experiment_config.get("searcher", {})`: a missing section reads as an
      empty mapping, a section that is present is taken as it is (even null). */
  function SearcherSection(config: map<string, Json>): (v: Json)
    ensures "searcher" !in config ==> v == Obj(map[])
  {
    if "searcher" in config then config["searcher"] else Obj(map[])
  }

  /** The entry whose shape tells the units: `max_length`, or
      `length_per_round` when `max_length` is absent or falsy (population
      based training has no `max_length`). */
  function LengthExample(searcher: map<string, Json>): (v: Json)
    ensures Truthy(Get(searcher, "max_length")) ==> v == searcher["max_length"]
    ensures !Truthy(Get(searcher, "max_length")) ==> v == Get(searcher, "length_per_round")
  {
    Or(Get(searcher, "max_length"), Get(searcher, "length_per_round"))
  }

  lemma SingletonKey(keys: set<string>)
    requires |keys| == 1
    ensures exists k :: keys == {k}
  {
    var k :| k in keys;
    assert |keys - {k}| == 0;
    assert keys == {k};
  }

  /** The one key of a single-entry mapping. */
  function OnlyKey(m: map<string, Json>): (k: string)
    requires |m| == 1
    ensures k in m && m.Keys == {k}
  {
    SingletonKey(m.Keys);
    var k :| m.Keys == {k}; k
  }

  /** The configured unit: `Some(u)` when the length entry is a mapping with
      exactly one key and that key names `u`; `None` for a bare number, a
      mapping with zero or several keys, an unknown key, or no length at all. */
  function ParseSearcherUnits(config: map<string, Json>): (r: Result<Option<Unit>, ParseError>)
    ensures r.Err? <==> !SearcherSection(config).Obj?
    ensures "searcher" !in config ==> r == Ok(None)
    ensures r.Ok? && r.value.Some? ==>
              LengthExample(SearcherSection(config).fields).Obj? &&
              LengthExample(SearcherSection(config).fields).fields.Keys == {UnitKey(r.value.value)}
  {
    var searcher := SearcherSection(config);
    if !searcher.Obj? then Err(SearcherNotAMapping)
    else
      var example := LengthExample(searcher.fields);
      if example.Obj? && |example.fields| == 1 then
        Ok(UnitForKey(OnlyKey(example.fields)))
      else
        Ok(None)
  }

  /** A unit is reported exactly when the length entry is a mapping whose only
      key is that unit's spelling. */
  lemma ParsedUnitIff(config: map<string, Json>, u: Unit)
    ensures ParseSearcherUnits(config) == Ok(Some(u)) <==>
              SearcherSection(config).Obj? &&
              LengthExample(SearcherSection(config).fields).Obj? &&
              LengthExample(SearcherSection(config).fields).fields.Keys == {UnitKey(u)}
  {
    var searcher := SearcherSection(config);
    if searcher.Obj? {
      var example := LengthExample(searcher.fields);
      if example.Obj? && example.fields.Keys == {UnitKey(u)} {
        assert |example.fields| == |example.fields.Keys| == 1;
        assert OnlyKey(example.fields) == UnitKey(u);
      }
    }
  }

  /** A bare number as the length gives no unit (the `max_length: 50` case). */
  lemma BareLengthHasNoUnit(config: map<string, Json>)
    requires SearcherSection(config).Obj?
    requires !LengthExample(SearcherSection(config).fields).Obj?
    ensures ParseSearcherUnits(config) == Ok(None)
  {
  }

  /** A truthy `max_length` decides alone: `length_per_round` is never read. */
  lemma MaxLengthTakesPrecedence(searcher: map<string, Json>, other: Json)
    requires "max_length" in searcher && Truthy(searcher["max_length"])
    ensures ParseSearcherUnits(map["searcher" := Obj(searcher)]) ==
            ParseSearcherUnits(map["searcher" := Obj(searcher["length_per_round" := other])])
  {
    var s2 := searcher["length_per_round" := other];
    assert Get(s2, "max_length") == searcher["max_length"];
    assert LengthExample(s2) == LengthExample(searcher);
  }

  /** An absent or falsy `max_length` (`0`, `{}`, ...) is passed over, and the
      result is what `length_per_round` alone would give. */
  lemma FalsyMaxLengthFallsThrough(searcher: map<string, Json>)
    requires !Truthy(Get(searcher, "max_length"))
    ensures ParseSearcherUnits(map["searcher" := Obj(searcher)]) ==
            ParseSearcherUnits(map["searcher" := Obj(searcher - {"max_length"})])
  {
    var s2 := searcher - {"max_length"};
    assert Get(s2, "max_length") == Null;
    assert Get(s2, "length_per_round") == Get(searcher, "length_per_round");
    assert LengthExample(s2) == LengthExample(searcher);
  }

  /** The two configurations of the documentation of get_configured_units:
      `max_length: {epochs: 50}` gives EPOCHS, `max_length: 50` gives none. */
  lemma DocumentedExamples()
    ensures ParseSearcherUnits(map["searcher" := Obj(map["name" := Str("single"), "max_length" := Obj(map["epochs" := Num(50)])])])
              == Ok(Some(EPOCHS))
    ensures ParseSearcherUnits(map["searcher" := Obj(map["name" := Str("single"), "max_length" := Num(50)])])
              == Ok(None)
  {
    var m := map["epochs" := Num(50)];
    assert m.Keys == {"epochs"};
    assert OnlyKey(m) == "epochs";
  }
}
