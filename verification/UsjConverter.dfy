/** The converters as they run: objects filled in by loops, proved against UsjConversion. */
module UsjConverter {
  import opened Wrappers
  import opened UsjModel
  import opened UsjConversion
  import opened UsxNormalisation
  import opened UsjIdentity

  // ----- USX to USJ

  /** A marker that is being filled in. */
  class MarkerDraft {
    var type_: string
    var marker: Option<string>
    var props: map<string, string>
    var extra: Pairs<Value>
    var content: Contents

    function Result(): UsjMarker
      reads this
    {
      UsjMarker(type_, marker, props, extra, content)
    }

    constructor (type_: string)
      ensures Result() == Blank(type_, None)
    {
      this.type_ := type_;
      marker, props, extra, content := None, map[], [], Null;
    }

    /** Sets the property of that name, whatever its case, or else extension data. */
    method Assign(name: string, value: string) returns (ok: bool)
      modifies this
      ensures ok <==> Lower(name) != "content"
      ensures Result() == if ok then AssignedOne(name, value, old(Result())) else old(Result())
    {
      var property := Lower(name);
      if property == "content" { return false; }
      if property == "type" {
        type_ := value;
      } else if property == "marker" {
        marker := Some(value);
      } else if property in KNOWN {
        props := props[property := value];
      } else {
        extra := Put(extra, name, StringValue(value));
      }
      return true;
    }

    method AssignAll(attrs: Pairs<string>) returns (ok: bool)
      modifies this
      ensures ok <==> Assigned(attrs, old(Result())).Some?
      ensures ok ==> Some(Result()) == Assigned(attrs, old(Result()))
    {
      hide AssignedOne, Lower;
      ok := true;
      for i := 0 to |attrs|
        invariant Assigned(attrs, old(Result())) == Assigned(attrs[i..], Result())
      {
        ok := Assign(attrs[i].0, attrs[i].1);
        if !ok { return; }
      }
    }

    method Add(c: Content)
      requires content.Items?
      modifies this`content
      ensures content == Items(old(content.items) + [c])
    {
      content := Items(content.items + [c]);
    }

    /** Adds the children and the text after each of them. */
    method AddChildren(kids: seq<Xml>) returns (ok: bool)
      requires content.Items?
      modifies this`content
      ensures ok <==> ChildContents(kids).Some?
      ensures ok ==> content == Items(old(content.items) + ChildContents(kids).value)
      decreases kids, 0
    {
      hide Converted;
      ok := true;
      for i := 0 to |kids|
        invariant content.Items?
        invariant ChildContents(kids).None? <==> ChildContents(kids[i..]).None?
        invariant ChildContents(kids).Some? ==>
          old(content.items) + ChildContents(kids).value == content.items + ChildContents(kids[i..]).value
      {
        if !kids[i].Element? { continue; }
        assert kids[i..][1..] == kids[i + 1..];
        var child, append := ConvertElement(kids[i]);
        if child.None? { return false; }
        if append { Add(Marker(child.value)); }
        if i + 1 < |kids| && (kids[i + 1].Text? || kids[i + 1] == Whitespace(" ")) {
          Add(Str(kids[i + 1].value));
        }
      }
    }
  }

  method StripAttributes(attrs: Pairs<string>) returns (style: Option<string>, rest: Pairs<string>)
    ensures style == Get(attrs, "style") && rest == Unstyled(attrs)
  {
    style := Get(attrs, "style");
    rest := Without(attrs, "style");
    rest := Without(rest, "vid");
    rest := Without(rest, "status");
  }

  /** Also says whether the parent is to keep the result. */
  method ConvertElement(e: Xml) returns (r: Option<UsjMarker>, append: bool)
    requires e.Element?
    ensures r == Converted(e)
    ensures r.Some? ==> (append <==> !IsEndMilestone(e.name, r.value))
    decreases e, 1
  {
    hide Unstyled, Get, AssignedOne, ChildContents;
    var type_ := e.name;
    if type_ == "row" || type_ == "cell" { type_ := TABLE_PREFIX + type_; }
    var style, attrs := StripAttributes(e.attrs);
    var out := new MarkerDraft(type_);
    if style.Some? { out.marker := style; }
    var ok := out.AssignAll(attrs);
    if !ok { return None, true; }
    out.content := Items([]);
    if |e.kids| > 0 && !e.kids[0].Element? && !IsNullOrXmlWhitespace(e.kids[0].value) {
      out.Add(Str(e.kids[0].value));
    }
    assert out.content == Items(LeadingText(e.kids));
    ok := out.AddChildren(e.kids);
    if !ok { return None, true; }
    if out.content.items == [] && out.type_ != USX_TYPE { out.content := Null; }
    append := !("eid" in out.props && (type_ == "verse" || type_ == "chapter"));
    r := Some(out.Result());
  }

  /** The root keeps its unknown attributes only; its type and version are always the standard ones. */
  method ConvertDocument(root: Option<Xml>) returns (r: Option<Usj>)
    requires root.Some? ==> root.value.Element?
    ensures r == UsxToUsj(root)
  {
    hide Unstyled, Get, ChildContents, Lower;
    if root.None? { return Some(Usj(USJ_TYPE, USJ_VERSION, [], Items([]))); }
    var e := root.value;
    var style, attrs := StripAttributes(e.attrs);
    var u := Usj(TypeOf(e.name), "", [], Null);
    for i := 0 to |attrs|
      invariant RootAssigned(attrs, Usj(TypeOf(e.name), "", [], Null)) == RootAssigned(attrs[i..], u)
    {
      var (name, value) := attrs[i];
      var property := Lower(name);
      if property == "content" { return None; }
      if property == "type" {
        u := u.(type_ := value);
      } else if property == "version" {
        u := u.(version := value);
      } else {
        u := u.(extra := Put(u.extra, name, StringValue(value)));
      }
    }
    var out := new MarkerDraft(u.type_);
    out.content := Items([]);
    if |e.kids| > 0 && !e.kids[0].Element? && !IsNullOrXmlWhitespace(e.kids[0].value) {
      out.Add(Str(e.kids[0].value));
    }
    assert out.content == Items(LeadingText(e.kids));
    var ok := out.AddChildren(e.kids);
    if !ok { return None; }
    if out.content.items == [] && u.type_ != USX_TYPE { out.content := Null; }
    r := Some(Usj(USJ_TYPE, USJ_VERSION, u.extra, out.content));
  }

  // ----- USJ to USX

  /** An element that is being built. */
  class ElementDraft {
    const name: string
    var attrs: Pairs<string>
    var kids: seq<Xml>

    constructor (name: string)
      ensures this.name == name && attrs == [] && kids == []
    {
      this.name := name;
      attrs, kids := [], [];
    }

    method SetAttribute(k: string, v: string)
      modifies this`attrs
      ensures attrs == Put(old(attrs), k, v)
    {
      attrs := Put(attrs, k, v);
    }

    method AppendChild(x: Xml)
      modifies this`kids
      ensures kids == old(kids) + [x]
    {
      kids := kids + [x];
    }

    method SetAttributes(m: UsjMarker)
      requires attrs == []
      modifies this`attrs
      ensures attrs == AttributesOf(m)
    {
      hide StandardAttrs, StandardAttr, Put, WithExtra;
      assert ATTRIBUTE_ORDER[..0] == [];
      NoStandard(m);
      for i := 0 to |ATTRIBUTE_ORDER|
        invariant attrs == StandardAttrs(m, ATTRIBUTE_ORDER[..i])
      {
        var attr := StandardAttr(m, ATTRIBUTE_ORDER[i]);
        NextStandard(m, i);
        if attr != [] { SetAttribute(attr[0].0, attr[0].1); }
      }
      assert ATTRIBUTE_ORDER[..|ATTRIBUTE_ORDER|] == ATTRIBUTE_ORDER;
      ghost var standard := attrs;
      for i := 0 to |m.extra|
        invariant WithExtra(attrs, m.extra[i..]) == WithExtra(standard, m.extra)
      {
        var (k, v) := m.extra[i];
        NextExtra(attrs, m.extra[i..]);
        assert m.extra[i..][1..] == m.extra[i + 1..];
        if v.StringValue? && k != "type" && k != "marker" && k != "content" { SetAttribute(k, v.text); }
      }
      NoExtra(attrs);
    }
  }

  lemma NoStandard(m: UsjMarker)
    ensures StandardAttrs(m, []) == []
  {
  }

  lemma NoExtra(attrs: Pairs<string>)
    ensures WithExtra(attrs, []) == attrs
  {
  }

  lemma NextExtra(attrs: Pairs<string>, extra: Pairs<Value>)
    requires extra != []
    ensures var (k, v) := extra[0];
      WithExtra(attrs, extra)
      == WithExtra(
         if v.StringValue? && k !in {"type", "marker", "content"} then Put(attrs, k, v.text) else attrs,
         extra[1..])
  {
  }

  lemma {:induction false} StandardAttrsAppend(m: UsjMarker, a: seq<string>, b: seq<string>)
    ensures StandardAttrs(m, a + b) == StandardAttrs(m, a) + StandardAttrs(m, b)
  {
    hide StandardAttr;
    if a == [] {
      assert a + b == b;
    } else {
      assert (a + b)[1..] == a[1..] + b;
      StandardAttrsAppend(m, a[1..], b);
    }
  }

  /** The next standard attribute is a new one, so setting it appends it. */
  lemma NextStandard(m: UsjMarker, i: nat)
    requires i < |ATTRIBUTE_ORDER|
    ensures var before := StandardAttrs(m, ATTRIBUTE_ORDER[..i]);
      var attr := StandardAttr(m, ATTRIBUTE_ORDER[i]);
      StandardAttrs(m, ATTRIBUTE_ORDER[..i + 1]) == if attr == [] then before else Put(before, attr[0].0, attr[0].1)
  {
    hide Put, KNOWN, HasKey;
    var names := ATTRIBUTE_ORDER[..i];
    var attr := StandardAttr(m, ATTRIBUTE_ORDER[i]);
    assert Distinct(ATTRIBUTE_ORDER) && "marker" !in ATTRIBUTE_ORDER;
    assert ATTRIBUTE_ORDER[..i + 1] == names + [ATTRIBUTE_ORDER[i]];
    StandardAttrsAppend(m, names, [ATTRIBUTE_ORDER[i]]);
    StandardUnique(m, names);
    if attr != [] { PutNew(StandardAttrs(m, names), attr[0].0, attr[0].1); }
  }

  method ConvertContent(c: Content, parent: ElementDraft)
    modifies parent`kids
    ensures parent.kids == old(parent.kids) + [Node(c)]
    decreases c
  {
    hide AttributesOf, Strip;
    match c {
      case Str(text) =>
        parent.AppendChild(Text(text));
      case Marker(m) =>
        var element := new ElementDraft(Strip(m.type_));
        element.SetAttributes(m);
        if m.content.Items? {
          assert m.content.items[..0] == [];
          for i := 0 to |m.content.items|
            invariant element.kids == Nodes(m.content.items[..i])
            invariant parent.kids == old(parent.kids) && element.attrs == AttributesOf(m)
          {
            NodesNext(m.content.items, i);
            ConvertContent(m.content.items[i], element);
          }
          assert m.content.items[..|m.content.items|] == m.content.items;
        }
        parent.AppendChild(Element(element.name, element.attrs, element.kids));
    }
  }

  lemma NodesNext(cs: seq<Content>, i: nat)
    requires i < |cs|
    ensures Nodes(cs[..i + 1]) == Nodes(cs[..i]) + [Node(cs[i])]
  {
    assert cs[..i + 1] == cs[..i] + [cs[i]];
    NodesAppend(cs[..i], [cs[i]]);
  }

  method ConvertUsj(u: Usj) returns (x: Xml)
    ensures x == UsjToUsx(u)
  {
    hide Node;
    var root := new ElementDraft(USX_TYPE);
    root.SetAttribute("version", USX_VERSION);
    if u.content.Items? {
      assert u.content.items[..0] == [];
      for i := 0 to |u.content.items|
        invariant root.kids == Nodes(u.content.items[..i])
        invariant root.attrs == [("version", USX_VERSION)]
      {
        NodesNext(u.content.items, i);
        ConvertContent(u.content.items[i], root);
      }
      assert u.content.items[..|u.content.items|] == u.content.items;
    }
    x := Element(root.name, root.attrs, root.kids);
  }
}
