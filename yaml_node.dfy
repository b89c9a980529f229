/** The document tree `ParseConfigFile` walks. The yaml library itself is
    not part of this model: a node is one of its five kinds, a mapping keeps
    its entries in document order, and the accesses and conversions below
    are the ones the configuration code asks for, with their fallbacks.
    Where the library throws, they return None. */
module Yaml {
  import opened Common
  import opened Numerals

  datatype Node =
    | Undefined
    | Null
    | Scalar(text: string)
    | Sequence(items: seq<Node>)
    | Mapping(entries: seq<Entry>)

  datatype Entry = Entry(key: Node, value: Node)

  /** `explicit operator bool`: the node exists. */
  predicate IsDefined(n: Node)
  {
    !n.Undefined?
  }

  /** Index of the first entry whose key is the scalar `key`. */
  function FindKey(entries: seq<Entry>, key: string): (r: Option<nat>)
    ensures r.Some? ==> r.value < |entries| && entries[r.value].key == Scalar(key)
    ensures r.Some? ==> forall i :: 0 <= i < r.value ==> entries[i].key != Scalar(key)
    ensures r.None? ==> forall i :: 0 <= i < |entries| ==> entries[i].key != Scalar(key)
  {
    if |entries| == 0 then None
    else if entries[0].key == Scalar(key) then Some(0)
    else match FindKey(entries[1..], key)
      case None => None
      case Some(i) => Some(i + 1)
  }

  /** The value `node[key]` finds once it has not thrown: the value of the
      first entry with that key in a mapping, or an undefined node (the
      library's "zombie") when the mapping has no such key or `n` is null,
      a sequence or undefined itself. Scalars never get this far: see
      `Index`. */
  function Get(n: Node, key: string): (r: Node)
    ensures !n.Mapping? ==> r.Undefined?
    ensures n.Mapping? && (forall i :: 0 <= i < |n.entries| ==> n.entries[i].key != Scalar(key)) ==> r.Undefined?
  {
    if n.Mapping? then
      match FindKey(n.entries, key)
        case Some(i) => n.entries[i].value
        case None => Undefined
    else Undefined
  }

  /** `node[key]` on a const node, with the library's exceptions as None:
      subscripting a scalar throws BadSubscript and subscripting an
      undefined node throws InvalidNode. A null node or a sequence gives an
      undefined node; a mapping gives what `Get` finds. */
  function Index(n: Node, key: string): (r: Option<Node>)
    ensures r.None? <==> n.Scalar? || n.Undefined?
    ensures n.Mapping? ==> r == Some(Get(n, key))
    ensures n.Null? || n.Sequence? ==> r == Some(Undefined)
  {
    if n.Scalar? || n.Undefined? then None else Some(Get(n, key))
  }

  /** `IsSequence()`: it asks for the node's type, which throws
      InvalidNode on an undefined node (None). */
  function IsSequenceOrThrow(n: Node): (r: Option<bool>)
    ensures r.None? <==> n.Undefined?
    ensures r.Some? ==> (r.value <==> n.Sequence?)
  {
    if n.Undefined? then None else Some(n.Sequence?)
  }

  /** The entries an iterator over a mapping visits; other nodes are
      treated as empty ranges. */
  function EntriesOf(n: Node): seq<Entry>
  {
    if n.Mapping? then n.entries else []
  }

  /** `as<std::string>(fallback)`: a scalar's text, otherwise the fallback. */
  function AsString(n: Node, fallback: string): (s: string)
    ensures n.Scalar? ==> s == n.text
    ensures !n.Scalar? ==> s == fallback
  {
    if n.Scalar? then n.text else fallback
  }

  /** `as<std::string>()` without a fallback: None where it throws. */
  function AsStringOrThrow(n: Node): (s: Option<string>)
    ensures s.Some? <==> n.Scalar?
  {
    if n.Scalar? then Some(n.text) else None
  }

  const TRUE_WORDS: set<string> := {"y", "Y", "yes", "Yes", "YES", "true", "True", "TRUE", "on", "On", "ON"}
  const FALSE_WORDS: set<string> := {"n", "N", "no", "No", "NO", "false", "False", "FALSE", "off", "Off", "OFF"}

  /** `as<bool>(fallback)`. */
  function AsBool(n: Node, fallback: bool): (b: bool)
    ensures n.Scalar? && n.text in TRUE_WORDS ==> b
    ensures n.Scalar? && n.text in FALSE_WORDS ==> !b
    ensures !n.Scalar? ==> b == fallback
  {
    if n.Scalar? && n.text in TRUE_WORDS then true
    else if n.Scalar? && n.text in FALSE_WORDS then false
    else fallback
  }

  /** `as<int>(fallback)`: an optionally negative run of decimal digits that
      fits an `int`, otherwise the fallback. */
  function AsInt(n: Node, fallback: int): (v: int)
    ensures !n.Scalar? ==> v == fallback
  {
    if !n.Scalar? then fallback
    else
      var t := n.text;
      var negative := |t| > 0 && t[0] == '-';
      var digits := if negative then t[1..] else t;
      if |digits| == 0 || !AllDecimal(digits) then fallback
      else
        var magnitude: int := DecimalValue(digits);
        var value := if negative then -magnitude else magnitude;
        if -0x8000_0000 <= value < 0x8000_0000 then value else fallback
  }
}
