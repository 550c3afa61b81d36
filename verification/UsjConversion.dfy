/** USX to USJ and back, as functions. UsjConverter.dfy holds the loops. */
module UsjConversion {
  import opened Wrappers
  import opened UsjModel

  // ----- USX to USJ

  function TypeOf(name: string): string {
    if name == "row" || name == "cell" then TABLE_PREFIX + name else name
  }

  /** Sets the attributes one by one. An attribute called `content` meets a property of another type and throws. */
  function Assigned(attrs: Pairs<string>, m: UsjMarker): Option<UsjMarker> {
    if attrs == [] then Some(m)
    else
      var (k, v) := attrs[0];
      if Lower(k) == "content" then None else Assigned(attrs[1..], AssignedOne(k, v, m))
  }

  function AssignedOne(k: string, v: string, m: UsjMarker): UsjMarker {
    var p := Lower(k);
    if p == "type" then m.(type_ := v)
    else if p == "marker" then m.(marker := Some(v))
    else if p in KNOWN then m.(props := m.props[p := v])
    else m.(extra := Put(m.extra, k, StringValue(v)))
  }

  function Unstyled(attrs: Pairs<string>): Pairs<string> {
    Without(Without(Without(attrs, "style"), "vid"), "status")
  }

  function Blank(type_: string, marker: Option<string>): UsjMarker {
    UsjMarker(type_, marker, map[], [], Null)
  }

  function LeadingText(kids: seq<Xml>): seq<Content> {
    if kids != [] && !kids[0].Element? && !IsNullOrXmlWhitespace(kids[0].value) then [Str(kids[0].value)] else []
  }

  /** The text right after an element. */
  function FollowingText(kids: seq<Xml>): seq<Content> {
    if kids != [] && (kids[0].Text? || kids[0] == Whitespace(" ")) then [Str(kids[0].value)] else []
  }

  function ChildContents(kids: seq<Xml>): Option<seq<Content>>
    decreases kids
  {
    if kids == [] then Some([])
    else if !kids[0].Element? then ChildContents(kids[1..])
    else
      var child := Converted(kids[0]);
      var rest := ChildContents(kids[1..]);
      if child.None? || rest.None? then None
      else
        Some((if IsEndMilestone(kids[0].name, child.value) then [] else [Marker(child.value)])
             + FollowingText(kids[1..]) + rest.value)
  }

  /** The end of a verse or chapter, which USJ leaves out. */
  predicate IsEndMilestone(name: string, m: UsjMarker) {
    "eid" in m.props && (name == "verse" || name == "chapter")
  }

  function Converted(e: Xml): Option<UsjMarker>
    requires e.Element?
    decreases e
  {
    var m := Assigned(Unstyled(e.attrs), Blank(TypeOf(e.name), Get(e.attrs, "style")));
    var contents := ChildContents(e.kids);
    if m.None? || contents.None? then None
    else
      var all := LeadingText(e.kids) + contents.value;
      Some(m.value.(content := if all == [] && m.value.type_ != USX_TYPE then Null else Items(all)))
  }

  /** The root has neither a marker nor the properties of one. */
  function RootAssigned(attrs: Pairs<string>, u: Usj): Option<Usj> {
    if attrs == [] then Some(u)
    else
      var (k, v) := attrs[0];
      var p := Lower(k);
      if p == "content" then None
      else if p == "type" then RootAssigned(attrs[1..], u.(type_ := v))
      else if p == "version" then RootAssigned(attrs[1..], u.(version := v))
      else RootAssigned(attrs[1..], u.(extra := Put(u.extra, k, StringValue(v))))
  }

  function UsxToUsj(root: Option<Xml>): Option<Usj>
    requires root.Some? ==> root.value.Element?
  {
    if root.None? then Some(Usj(USJ_TYPE, USJ_VERSION, [], Items([])))
    else
      var e := root.value;
      var u := RootAssigned(Unstyled(e.attrs), Usj(TypeOf(e.name), "", [], Null));
      var contents := ChildContents(e.kids);
      if u.None? || contents.None? then None
      else
        var all := LeadingText(e.kids) + contents.value;
        Some(Usj(USJ_TYPE, USJ_VERSION, u.value.extra,
                 if all == [] && u.value.type_ != USX_TYPE then Null else Items(all)))
  }

  // ----- USJ to USX

  function StandardAttr(m: UsjMarker, name: string): Pairs<string> {
    if name == "style" then
      if m.marker.None? then [] else [(if m.type_ == "unmatched" then "marker" else "style", m.marker.value)]
    else if name in m.props then [(name, m.props[name])]
    else []
  }

  function StandardAttrs(m: UsjMarker, names: seq<string>): Pairs<string> {
    if names == [] then [] else StandardAttr(m, names[0]) + StandardAttrs(m, names[1..])
  }

  function WithExtra(attrs: Pairs<string>, extra: Pairs<Value>): Pairs<string>
    decreases extra
  {
    if extra == [] then attrs
    else
      var (k, v) := extra[0];
      WithExtra(
        if v.StringValue? && k !in {"type", "marker", "content"} then Put(attrs, k, v.text) else attrs,
        extra[1..])
  }

  function AttributesOf(m: UsjMarker): Pairs<string> {
    WithExtra(StandardAttrs(m, ATTRIBUTE_ORDER), m.extra)
  }

  function Node(c: Content): Xml
    decreases c
  {
    match c
    case Str(text) => Text(text)
    case Marker(m) => Element(Strip(m.type_), AttributesOf(m), if m.content.Null? then [] else Nodes(m.content.items))
  }

  function Nodes(cs: seq<Content>): (xs: seq<Xml>)
    ensures |xs| == |cs|
    decreases cs
  {
    if cs == [] then [] else [Node(cs[0])] + Nodes(cs[1..])
  }

  function UsjToUsx(u: Usj): Xml {
    Element(USX_TYPE, [("version", USX_VERSION)], if u.content.Null? then [] else Nodes(u.content.items))
  }
}
