/** USX elements and their JSON counterpart, USJ. */
module UsjModel {
  import opened Wrappers

  /** Attributes and extension data keep their order; a key occurs once. */
  type Pairs<V> = seq<(string, V)>

  datatype Xml =
    | Text(value: string)
    | Whitespace(value: string)
    | Element(name: string, attrs: Pairs<string>, kids: seq<Xml>)

  /** An extension value; only strings have a place in USX. */
  datatype Value = StringValue(text: string) | OtherValue

  datatype Content = Str(text: string) | Marker(marker: UsjMarker)

  /** A nullable list of contents. */
  datatype Contents = Null | Items(items: seq<Content>)

  /** `props` holds the remaining properties that are not null, by their lower-case name. */
  datatype UsjMarker = UsjMarker(
    type_: string,
    marker: Option<string>,
    props: map<string, string>,
    extra: Pairs<Value>,
    content: Contents)

  datatype Usj = Usj(type_: string, version: string, extra: Pairs<Value>, content: Contents)

  const USX_TYPE := "usx"
  const USX_VERSION := "3.0"
  const USJ_TYPE := "USJ"
  const USJ_VERSION := "3.1"

  /** The nullable string properties of a marker, other than its type and marker. */
  const KNOWN: set<string> :=
    {"sid", "eid", "number", "code", "altnumber", "pubnumber", "caller", "align", "category"}

  /** The order in which a marker's properties become attributes; `style` stands for the marker. */
  const ATTRIBUTE_ORDER: seq<string> :=
    ["code", "caller", "number", "style", "altnumber", "pubnumber", "align", "category", "sid", "eid"]

  function Get<V>(p: Pairs<V>, k: string): Option<V> {
    if p == [] then None else if p[0].0 == k then Some(p[0].1) else Get(p[1..], k)
  }

  function Without<V>(p: Pairs<V>, k: string): Pairs<V> {
    if p == [] then []
    else if p[0].0 == k then Without(p[1..], k)
    else [p[0]] + Without(p[1..], k)
  }

  /** Sets a value in place, or at the end if the key is new. */
  function Put<V>(p: Pairs<V>, k: string, v: V): Pairs<V> {
    if p == [] then [(k, v)]
    else if p[0].0 == k then [(k, v)] + p[1..]
    else [p[0]] + Put(p[1..], k, v)
  }

  function LowerChar(c: char): char {
    if 'A' <= c <= 'Z' then ((c as int) + 32) as char else c
  }

  function Lower(s: string): string {
    if s == [] then [] else [LowerChar(s[0])] + Lower(s[1..])
  }

  predicate IsXmlSpace(c: char) {
    c == '\t' || c == '\n' || c == '\r' || c == ' '
  }

  predicate AllXmlSpace(s: string) {
    s == [] || (IsXmlSpace(s[0]) && AllXmlSpace(s[1..]))
  }

  /** Empty, or white space other than a single blank. */
  predicate IsNullOrXmlWhitespace(s: string) {
    s == [] || (AllXmlSpace(s) && s != " ")
  }

  const TABLE_PREFIX := "table:"

  /** Removes every occurrence of the prefix. */
  function Strip(s: string): string {
    if s == [] then []
    else if TABLE_PREFIX <= s then Strip(s[6..])
    else [s[0]] + Strip(s[1..])
  }
}
