/** Schema type names (internal/schema/registry.go, normalizeSchemaType). Upper-casing is ASCII. */
module SchemaTypes {
  import Compaction

  const AVRO: string := "AVRO"
  const JSON_SCHEMA: string := "JSONSCHEMA"
  const PROTOBUF: string := "PROTOBUF"

  function Upper(s: string): (r: string)
    ensures |r| == |s|
  {
    seq(|s|, i requires 0 <= i < |s| => if 'a' <= s[i] <= 'z' then (s[i] as int - 32) as char else s[i])
  }

  function NormalizeSchemaType(typ: string): string {
    var t := Upper(Compaction.TrimSpace(typ));
    if t == JSON_SCHEMA || t == "JSON_SCHEMA" || t == "JSON" then JSON_SCHEMA
    else if t == PROTOBUF || t == "PROTO" then PROTOBUF
    else if t == AVRO || t == "" then AVRO
    else t
  }

  lemma {:induction false} UpperIsStable(s: string)
    ensures Upper(Upper(s)) == Upper(s)
  {
  }

  /** The text neither starts nor ends with whitespace. */
  predicate IsTight(s: string) {
    s == "" || (!Compaction.IsUnicodeSpace(s[0]) && !Compaction.IsUnicodeSpace(s[|s| - 1]))
  }

  lemma {:induction false} TrimLeftIsTight(s: string)
    ensures Compaction.TrimLeft(s) == "" || !Compaction.IsUnicodeSpace(Compaction.TrimLeft(s)[0])
  {
    if s != "" {
      TrimLeftIsTight(s[1..]);
    }
  }

  lemma {:induction false} TrimRightIsTight(s: string)
    requires s == "" || !Compaction.IsUnicodeSpace(s[0])
    ensures IsTight(Compaction.TrimRight(s))
  {
    if s != "" && Compaction.IsUnicodeSpace(s[|s| - 1]) {
      TrimRightIsTight(s[..|s| - 1]);
    }
  }

  lemma {:induction false} UpperIsTight(s: string)
    requires IsTight(s)
    ensures IsTight(Upper(s))
  {
  }

  /** Trimming and upper-casing twice is doing it once. */
  lemma {:induction false} CanonicalIsStable(typ: string)
    ensures
      var t := Upper(Compaction.TrimSpace(typ));
      Upper(Compaction.TrimSpace(t)) == t
  {
    TrimLeftIsTight(typ);
    TrimRightIsTight(Compaction.TrimLeft(typ));
    UpperIsTight(Compaction.TrimSpace(typ));
    UpperIsStable(Compaction.TrimSpace(typ));
  }

  /** The aliases, in any case and with any whitespace around them; an empty type is Avro, and any other
      name stands for itself. */
  lemma {:induction false} TypesAreCanonical(typ: string)
    ensures
      var t := Upper(Compaction.TrimSpace(typ));
      && (t == "AVRO" || t == "" ==> NormalizeSchemaType(typ) == "AVRO")
      && (t == "JSON" || t == "JSON_SCHEMA" || t == "JSONSCHEMA" ==> NormalizeSchemaType(typ) == "JSONSCHEMA")
      && (t == "PROTO" || t == "PROTOBUF" ==> NormalizeSchemaType(typ) == "PROTOBUF")
      && (t !in {"AVRO", "", "JSON", "JSON_SCHEMA", "JSONSCHEMA", "PROTO", "PROTOBUF"} ==> NormalizeSchemaType(typ) == t)
  {
  }

  lemma {:induction false} TrimIsIdentity(s: string)
    requires s != "" && IsTight(s)
    ensures Compaction.TrimSpace(s) == s
  {
  }

  lemma {:induction false} UpperOfUpperCase(s: string)
    requires s != "" && IsTight(s) && forall i :: 0 <= i < |s| ==> !('a' <= s[i] <= 'z')
    ensures Upper(Compaction.TrimSpace(s)) == s
  {
    TrimIsIdentity(s);
  }

  /** A normalised type is left alone. */
  lemma {:induction false} NormalizingIsStable(typ: string)
    ensures NormalizeSchemaType(NormalizeSchemaType(typ)) == NormalizeSchemaType(typ)
  {
    var r := NormalizeSchemaType(typ);
    if r == AVRO || r == JSON_SCHEMA || r == PROTOBUF {
      UpperOfUpperCase(r);
    } else {
      CanonicalIsStable(typ);
    }
  }

  lemma {:induction false} UpperIsUpper()
    ensures Upper("avro") == "AVRO" && Upper("Json_Schema") == "JSON_SCHEMA" && Upper("proto") == "PROTO"
  {
  }
}
