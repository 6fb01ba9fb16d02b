// The JSON text of a document value, as group keys, ranks and cells write it.
module Serialization {
  import opened Text
  import opened IndexMaps
  import opened Decimals
  import opened Jsons
  import opened Values

  // Decimals are written as strings; a float that has no number is null.
  function ValueJson(lib: Lib, value: Value): Json
    decreases value
  {
    match value
    case Null => JNull
    case Bool(flag) => JBool(flag)
    case Int(v) => JNumber(IntText(v))
    case UInt(v) => JNumber(IntText(v))
    case FloatValue(f) =>
      (match lib.floatNumber(f)
       case Some(text) => JNumber(text)
       case None => JNull)
    case Decimal(d) => JString(RenderDecimal(d))
    case String(text) => JString(text)
    case Binary(bytes) => JString(lib.base64(bytes))
    case Date(days) => JNumber(IntText(days))
    case TimestampMicros(micros) => JNumber(IntText(micros))
    case Array(items) => JArray(ItemsJson(lib, items))
    case Object(entries) => JObject(EntriesJson(lib, entries))
  }

  function ItemsJson(lib: Lib, items: seq<Value>): (r: seq<Json>)
    ensures |r| == |items| && forall i :: 0 <= i < |items| ==> r[i] == ValueJson(lib, items[i])
    decreases items
  {
    if items == [] then [] else [ValueJson(lib, items[0])] + ItemsJson(lib, items[1..])
  }

  function EntriesJson(lib: Lib, entries: IndexMap<Value>): (r: IndexMap<Json>)
    ensures |r| == |entries|
    ensures forall i :: 0 <= i < |entries| ==> r[i] == Entry(entries[i].key, ValueJson(lib, entries[i].value))
    decreases entries
  {
    if entries == [] then [] else
      [Entry(entries[0].key, ValueJson(lib, entries[0].value))] + EntriesJson(lib, entries[1..])
  }

  function JsonText(lib: Lib, value: Value): string {
    Print(ValueJson(lib, value))
  }

  lemma {:induction false} ValueReadable(lib: Lib, value: Value)
    ensures Readable(ValueJson(lib, value))
    decreases value
  {
    match value
    case Int(v) => IntTextReadable(v);
    case UInt(v) => IntTextReadable(v);
    case Date(days) => IntTextReadable(days);
    case TimestampMicros(micros) => IntTextReadable(micros);
    case Array(items) =>
      forall i | 0 <= i < |items| ensures Readable(ItemsJson(lib, items)[i]) {
        ValueReadable(lib, items[i]);
      }
    case Object(entries) =>
      forall i | 0 <= i < |entries| ensures Readable(EntriesJson(lib, entries)[i].value) {
        ValueReadable(lib, entries[i].value);
      }
    case _ =>
  }
}
