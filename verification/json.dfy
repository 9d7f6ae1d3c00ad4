/**
  The save record: the value `json.loads` returns. The textual form and its
  UTF-8 bytes are not modelled; a `JsonText` supplies both directions and
  `Faithful` states the one property the codec relies on.
 */
module Json {
  import opened Bytes
  import opened Results

  /** A JSON document. Objects are maps, so key order is not part of a value. */
  datatype Json =
    | JNull
    | JBool(b: bool)
    | JNum(n: int)
    | JStr(s: string)
    | JArr(items: seq<Json>)
    | JObj(fields: map<string, Json>)

  /**
    `dumps`: `json.dumps(v, separators=(',', ':')).encode('utf-8')`;
    `loads`: `json.loads(bytes.decode('utf-8'))`, `None` when either step raises.
   */
  datatype JsonText = JsonText(dumps: Json -> seq<byte>, loads: seq<byte> -> Option<Json>)

  /** Parsing what was serialised gives back an equal value. */
  ghost predicate Faithful(t: JsonText) {
    forall v :: t.loads(t.dumps(v)) == Some(v)
  }
}
