/**
 * Configuration validation (the `validateConfig` schema and
 * `validateArguments`). The schema is kept as data and read by a small
 * interpreter of the JSON-schema keywords it uses (`type`, `properties`,
 * `required`, `items`, `minItems`), as Ajv reads it; `ValidConfig` states the
 * same constraints by hand, and `SchemaAgreement` proves the two coincide.
 */
module Validation {
  import opened Wrappers
  import opened Js

  /** The JSON-schema type names (`number` is what an integer value has). */
  datatype JsonType = TNull | TBoolean | TNumber | TString | TArray | TObject

  datatype Property = Property(name: string, schema: Schema)

  /** One schema node: the keywords the configuration schema uses. */
  datatype Schema = Schema(
    types: set<JsonType>,
    properties: seq<Property>,
    required: seq<string>,
    items: Option<Schema>,
    minItems: nat)

  /** The JSON type of a value; undefined and functions have none. */
  function TypeOf(v: Value): Option<JsonType>
  {
    match v
    case Null => Some(TNull)
    case Bool(_) => Some(TBoolean)
    case Num(_) => Some(TNumber)
    case Str(_) => Some(TString)
    case Arr(_) => Some(TArray)
    case Obj(_) => Some(TObject)
    case _ => None
  }

  /**
   * Whether `v` satisfies `s`. Object keywords only look at objects, array
   * keywords only at arrays; a property whose value is undefined is absent.
   */
  predicate Conforms(v: Value, s: Schema)
    decreases s
  {
    && TypeOf(v).Some? && TypeOf(v).value in s.types
    && (v.Obj? ==>
          && (forall i :: 0 <= i < |s.properties| && Present(v, s.properties[i].name) ==>
                Conforms(v.fields[s.properties[i].name], s.properties[i].schema))
          && (forall i :: 0 <= i < |s.required| ==> Present(v, s.required[i])))
    && (v.Arr? ==>
          && |v.items| >= s.minItems
          && (s.items.Some? ==> forall j :: 0 <= j < |v.items| ==> Conforms(v.items[j], s.items.value)))
  }

  function Typed(types: set<JsonType>): Schema
  {
    Schema(types, [], [], None, 0)
  }

  const StringSchema: Schema := Typed({TString})

  const EntrySchema: Schema := Schema({TString, TArray}, [], [], Some(StringSchema), 1)

  const DeclarationSchema: Schema :=
    Schema({TObject},
      [ Property("module", StringSchema),
        Property("entry", EntrySchema),
        Property("global", Typed({TString, TNull})),
        Property("supplements", Schema({TArray}, [], [], Some(StringSchema), 0)),
        Property("append", Typed({TBoolean})) ],
      ["module", "entry"], None, 0)

  /** The configuration schema handed to Ajv. */
  const ConfigSchema: Schema :=
    Schema({TObject},
      [ Property("externals", Schema({TArray}, [], [], Some(DeclarationSchema), 1)),
        Property("hash", Typed({TBoolean})),
        Property("outputPath", StringSchema),
        Property("publicPath", Typed({TString, TNull})) ],
      ["externals"], None, 0)

  // ---------------------------------------------------------------------
  // The same constraints, by hand

  /** `entry`: a string, or a non-empty array of strings. */
  predicate ValidEntry(e: Value)
  {
    e.Str? || (IsStringArray(e) && |e.items| >= 1)
  }

  predicate ValidDeclaration(d: Value)
  {
    && d.Obj?
    && Get(d, "module").Str?
    && ValidEntry(Get(d, "entry"))
    && (Present(d, "global") ==> Get(d, "global").Str? || Get(d, "global").Null?)
    && (Present(d, "supplements") ==> IsStringArray(Get(d, "supplements")))
    && (Present(d, "append") ==> Get(d, "append").Bool?)
  }

  predicate ValidConfig(c: Value)
  {
    && c.Obj?
    && Get(c, "externals").Arr?
    && |Get(c, "externals").items| >= 1
    && (forall i :: 0 <= i < |Get(c, "externals").items| ==> ValidDeclaration(Get(c, "externals").items[i]))
    && (Present(c, "hash") ==> Get(c, "hash").Bool?)
    && (Present(c, "outputPath") ==> Get(c, "outputPath").Str?)
    && (Present(c, "publicPath") ==> Get(c, "publicPath").Str? || Get(c, "publicPath").Null?)
  }

  lemma StringArrayAgreement(v: Value, min: nat)
    ensures Conforms(v, Schema({TArray}, [], [], Some(StringSchema), min))
        <==> IsStringArray(v) && |v.items| >= min
  {
    if v.Arr? {
      assert forall j :: 0 <= j < |v.items| ==> (Conforms(v.items[j], StringSchema) <==> v.items[j].Str?);
    }
  }

  lemma EntryAgreement(e: Value)
    ensures Conforms(e, EntrySchema) <==> ValidEntry(e)
  {
    if e.Arr? {
      assert forall j :: 0 <= j < |e.items| ==> (Conforms(e.items[j], StringSchema) <==> e.items[j].Str?);
    }
  }

  lemma DeclarationAgreement(d: Value)
    ensures Conforms(d, DeclarationSchema) <==> ValidDeclaration(d)
  {
    if d.Obj? {
      var ps := DeclarationSchema.properties;
      EntryAgreement(Get(d, "entry"));
      StringArrayAgreement(Get(d, "supplements"), 0);
      assert ps[0].name == "module" && ps[1].name == "entry" && ps[2].name == "global";
      assert ps[3].name == "supplements" && ps[4].name == "append";
      if Conforms(d, DeclarationSchema) {
        assert Present(d, DeclarationSchema.required[0]) && Present(d, DeclarationSchema.required[1]);
        assert Conforms(Get(d, "module"), ps[0].schema);
        assert Conforms(Get(d, "entry"), ps[1].schema);
      }
      if ValidDeclaration(d) {
        forall i | 0 <= i < |ps| && Present(d, ps[i].name)
          ensures Conforms(d.fields[ps[i].name], ps[i].schema)
        {
          assert i == 0 || i == 1 || i == 2 || i == 3 || i == 4;
        }
      }
    }
  }

  /** The hand-written predicate is exactly the schema. */
  lemma SchemaAgreement(c: Value)
    ensures Conforms(c, ConfigSchema) <==> ValidConfig(c)
  {
    if c.Obj? {
      var ps := ConfigSchema.properties;
      var ex := Get(c, "externals");
      assert ps[0].name == "externals" && ps[1].name == "hash";
      assert ps[2].name == "outputPath" && ps[3].name == "publicPath";
      var exSchema := ps[0].schema;
      if ex.Arr? {
        forall j | 0 <= j < |ex.items|
          ensures Conforms(ex.items[j], DeclarationSchema) <==> ValidDeclaration(ex.items[j])
        {
          DeclarationAgreement(ex.items[j]);
        }
      }
      if Conforms(c, ConfigSchema) {
        assert Present(c, ConfigSchema.required[0]);
        assert Conforms(ex, exSchema);
      }
      if ValidConfig(c) {
        forall i | 0 <= i < |ps| && Present(c, ps[i].name)
          ensures Conforms(c.fields[ps[i].name], ps[i].schema)
        {
          assert i == 0 || i == 1 || i == 2 || i == 3;
        }
      }
    }
  }

  /** An abstract TypeError; Ajv's message is not modelled. */
  datatype SchemaError = TypeError

  /**
   * `validateArguments`: passes exactly the configurations the schema
   * accepts and throws a TypeError for all others.
   */
  function ValidateArguments(config: Value): (r: Result<(), SchemaError>)
    ensures r.Success? <==> Conforms(config, ConfigSchema)
  {
    SchemaAgreement(config);
    if ValidConfig(config) then Success(()) else Failure(TypeError)
  }

  /** The rejections the schema makes at the top level of the configuration. */
  lemma Rejections(c: Value)
    ensures !c.Obj? ==> !Conforms(c, ConfigSchema)
    ensures !Present(c, "externals") ==> !Conforms(c, ConfigSchema)
    ensures Get(c, "externals") == Arr([]) ==> !Conforms(c, ConfigSchema)
    ensures Present(c, "hash") && !Get(c, "hash").Bool? ==> !Conforms(c, ConfigSchema)
    ensures Present(c, "outputPath") && !Get(c, "outputPath").Str? ==> !Conforms(c, ConfigSchema)
    ensures Present(c, "publicPath") && !Get(c, "publicPath").Str? && !Get(c, "publicPath").Null?
            ==> !Conforms(c, ConfigSchema)
  {
    SchemaAgreement(c);
  }

  /** The rejections the schema makes for one item of `externals`. */
  lemma ItemRejections(c: Value, i: nat)
    requires Get(c, "externals").Arr? && i < |Get(c, "externals").items|
    ensures var d := Get(c, "externals").items[i];
      && (!Present(d, "module") || !Present(d, "entry") ==> !Conforms(c, ConfigSchema))
      && (Present(d, "module") && !Get(d, "module").Str? ==> !Conforms(c, ConfigSchema))
      && (Get(d, "entry") == Arr([]) ==> !Conforms(c, ConfigSchema))
      && (Present(d, "global") && !Get(d, "global").Str? && !Get(d, "global").Null? ==> !Conforms(c, ConfigSchema))
      && (Present(d, "supplements") && !IsStringArray(Get(d, "supplements")) ==> !Conforms(c, ConfigSchema))
      && (Present(d, "append") && !Get(d, "append").Bool? ==> !Conforms(c, ConfigSchema))
  {
    SchemaAgreement(c);
  }
}
