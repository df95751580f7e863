/** The configuration document as the loader sees it: a TOML value is an
    integer, a boolean, a string, an array, a table (its key/value entries,
    in the order the loader visits them) or an array of tables. Only the shape matters here;
    lexing and parsing the document are outside the model. */
module Toml {
  import opened Wrappers

  datatype Value =
    | IntValue(i: int)
    | BoolValue(b: bool)
    | StringValue(s: string)
    | ArrayValue(items: seq<Value>)
    | TableValue(entries: seq<Entry>)
    | TableArrayValue(tables: seq<seq<Entry>>)

  datatype Entry = Entry(key: string, value: Value)

  /** `readString`: the value must be a string. */
  function ReadString(key: string, v: Value): (r: Result<string, string>)
    ensures r.Ok? <==> v.StringValue?
    ensures r.Ok? ==> r.value == v.s
  {
    if v.StringValue? then Ok(v.s) else Err("invalid " + key)
  }

  predicate AllStrings(items: seq<Value>) {
    forall i :: 0 <= i < |items| ==> items[i].StringValue?
  }

  /** `readStringArray`: the value must be an array whose elements are all strings. */
  function ReadStringArray(key: string, v: Value): (r: Result<seq<string>, string>)
    ensures r.Ok? <==> v.ArrayValue? && AllStrings(v.items)
    ensures r.Ok? ==> |r.value| == |v.items| &&
                      forall i :: 0 <= i < |v.items| ==> v.items[i] == StringValue(r.value[i])
  {
    if !v.ArrayValue? then Err(key + " must be an array")
    else if !AllStrings(v.items) then Err("invalid element of " + key)
    else Ok(seq(|v.items|, i requires 0 <= i < |v.items| => v.items[i].s))
  }
}
