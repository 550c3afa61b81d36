/** USX to USJ and back is a normalisation. */
module UsxNormalisation {
  import opened Wrappers
  import opened UsjModel
  import opened UsjConversion

  // ----- what conversion to USJ does to a document

  /** No attribute of any element is called `content`. */
  predicate Readable(e: Xml)
    requires e.Element?
    decreases e, 1
  {
    NoContentAttr(Unstyled(e.attrs)) && AllReadable(e.kids)
  }

  predicate AllReadable(kids: seq<Xml>)
    decreases kids, 0
  {
    kids == [] || ((kids[0].Element? ==> Readable(kids[0])) && AllReadable(kids[1..]))
  }

  predicate NoContentAttr(attrs: Pairs<string>) {
    attrs == [] || (Lower(attrs[0].0) != "content" && NoContentAttr(attrs[1..]))
  }

  /** The last attribute whose name is `name` but for its case. */
  function LastNamed(attrs: Pairs<string>, name: string): Option<string> {
    if attrs == [] then None
    else
      var later := LastNamed(attrs[1..], name);
      if later.Some? then later else if Lower(attrs[0].0) == name then Some(attrs[0].1) else None
  }

  predicate IsProperty(name: string) {
    name in KNOWN || name in {"type", "marker", "content"}
  }

  /** The attributes USJ has no property for. */
  function Foreign(attrs: Pairs<string>): Pairs<string> {
    if attrs == [] then []
    else if IsProperty(Lower(attrs[0].0)) then Foreign(attrs[1..])
    else [attrs[0]] + Foreign(attrs[1..])
  }

  function NormalName(e: Xml): string
    requires e.Element?
  {
    var renamed := LastNamed(Unstyled(e.attrs), "type");
    if renamed.Some? then Strip(renamed.value) else Strip(TypeOf(e.name))
  }

  function NormalMarker(e: Xml): Option<string>
    requires e.Element?
  {
    var given := LastNamed(Unstyled(e.attrs), "marker");
    if given.Some? then given else Get(e.attrs, "style")
  }

  function NormalStandard(e: Xml, name: string): Pairs<string>
    requires e.Element?
  {
    var renamed := LastNamed(Unstyled(e.attrs), "type");
    var type_ := if renamed.Some? then renamed.value else TypeOf(e.name);
    var value := if name == "style" then NormalMarker(e) else LastNamed(Unstyled(e.attrs), name);
    if value.None? then []
    else [(if name == "style" && type_ == "unmatched" then "marker" else name, value.value)]
  }

  function NormalStandards(e: Xml, names: seq<string>): Pairs<string>
    requires e.Element?
  {
    if names == [] then [] else NormalStandard(e, names[0]) + NormalStandards(e, names[1..])
  }

  /** Known attributes in a fixed order, then the others; `vid` and `status` are gone. */
  function NormalAttrs(e: Xml): Pairs<string>
    requires e.Element?
  {
    NormalStandards(e, ATTRIBUTE_ORDER) + Foreign(Unstyled(e.attrs))
  }

  /** A verse or chapter that only marks an end. */
  predicate Dropped(e: Xml)
    requires e.Element?
  {
    (e.name == "verse" || e.name == "chapter") && LastNamed(Unstyled(e.attrs), "eid").Some?
  }

  // ----- text

  predicate White(s: string) {
    forall c :: c in s ==> c in {'\t', '\n', '\r', ' '}
  }

  /** Nothing but white space, and not the single blank that separates two elements. */
  predicate Ignorable(s: string) {
    White(s) && s != " "
  }

  lemma {:induction false} AllSpaceIsWhite(s: string)
    ensures AllXmlSpace(s) <==> White(s)
  {
    if s != [] {
      AllSpaceIsWhite(s[1..]);
      assert s[0] in s && forall c :: c in s <==> c == s[0] || c in s[1..];
    }
  }

  /** Text that holds any other character is never taken for ignorable white space, and no other text is kept. */
  lemma {:induction false} IgnorableExactly(s: string)
    ensures IsNullOrXmlWhitespace(s) <==> Ignorable(s)
  {
    AllSpaceIsWhite(s);
  }

  datatype Position = First | AfterElement | AfterText

  /** Ignorable white space goes, unless it is a text node right after an element. */
  predicate Kept(x: Xml, at: Position)
    requires !x.Element?
  {
    match at
    case First => !Ignorable(x.value)
    case AfterElement => x.Text? || x.value == " "
    case AfterText => false
  }

  function NormalKids(kids: seq<Xml>, at: Position): seq<Xml>
    decreases kids, 0
  {
    if kids == [] then []
    else if kids[0].Element? then
      (if Dropped(kids[0]) then [] else [Normal(kids[0])]) + NormalKids(kids[1..], AfterElement)
    else (if Kept(kids[0], at) then [Text(kids[0].value)] else []) + NormalKids(kids[1..], AfterText)
  }

  function Normal(e: Xml): Xml
    requires e.Element?
    decreases e, 1
  {
    Element(NormalName(e), NormalAttrs(e), NormalKids(e.kids, First))
  }

  // ----- attributes

  predicate HasKey<V>(p: Pairs<V>, k: string) {
    p != [] && (p[0].0 == k || HasKey(p[1..], k))
  }

  predicate UniqueKeys<V>(p: Pairs<V>) {
    p == [] || (!HasKey(p[1..], p[0].0) && UniqueKeys(p[1..]))
  }

  /** Documents whose elements do not repeat an attribute. */
  predicate WellFormed(e: Xml)
    requires e.Element?
    decreases e, 1
  {
    UniqueKeys(e.attrs) && AllWellFormed(e.kids)
  }

  predicate AllWellFormed(kids: seq<Xml>)
    decreases kids, 0
  {
    kids == [] || ((kids[0].Element? ==> WellFormed(kids[0])) && AllWellFormed(kids[1..]))
  }

  lemma {:induction false} HasKeyAppend<V>(p: Pairs<V>, q: Pairs<V>, k: string)
    ensures HasKey(p + q, k) <==> HasKey(p, k) || HasKey(q, k)
  {
    if p == [] {
      assert p + q == q;
    } else {
      assert (p + q)[1..] == p[1..] + q;
      HasKeyAppend(p[1..], q, k);
    }
  }

  lemma {:induction false} PutNew<V>(p: Pairs<V>, k: string, v: V)
    requires !HasKey(p, k)
    ensures Put(p, k, v) == p + [(k, v)]
  {
    if p != [] { PutNew(p[1..], k, v); }
  }

  lemma {:induction false} WithoutKeys<V>(p: Pairs<V>, k: string, j: string)
    ensures HasKey(Without(p, k), j) <==> HasKey(p, j) && j != k
  {
    if p != [] {
      WithoutKeys(p[1..], k, j);
      if p[0].0 != k {
        assert Without(p, k)[1..] == Without(p[1..], k);
      }
    }
  }

  lemma {:induction false} WithoutUnique<V>(p: Pairs<V>, k: string)
    requires UniqueKeys(p)
    ensures UniqueKeys(Without(p, k))
  {
    if p != [] {
      WithoutUnique(p[1..], k);
      if p[0].0 != k {
        WithoutKeys(p[1..], k, p[0].0);
        assert Without(p, k)[1..] == Without(p[1..], k);
      }
    }
  }

  lemma UnstyledUnique(p: Pairs<string>)
    requires UniqueKeys(p)
    ensures UniqueKeys(Unstyled(p))
  {
    WithoutUnique(p, "style");
    WithoutUnique(Without(p, "style"), "vid");
    WithoutUnique(Without(Without(p, "style"), "vid"), "status");
  }

  lemma UnstyledKeys(p: Pairs<string>, k: string)
    ensures HasKey(Unstyled(p), k) <==> HasKey(p, k) && k !in {"style", "vid", "status"}
  {
    WithoutKeys(p, "style", k);
    WithoutKeys(Without(p, "style"), "vid", k);
    WithoutKeys(Without(Without(p, "style"), "vid"), "status", k);
  }

  /** The attributes as extension data. */
  function AsValues(p: Pairs<string>): (r: Pairs<Value>)
    ensures |r| == |p| && forall i :: 0 <= i < |p| ==> r[i] == (p[i].0, StringValue(p[i].1))
  {
    if p == [] then [] else [(p[0].0, StringValue(p[0].1))] + AsValues(p[1..])
  }

  function Or(a: Option<string>, b: Option<string>): Option<string> {
    if a.Some? then a else b
  }

  lemma AssignedOneEffect(k: string, v: string, m: UsjMarker)
    requires Lower(k) != "content"
    ensures var n, p := AssignedOne(k, v, m), Lower(k);
      && n.type_ == (if p == "type" then v else m.type_)
      && n.marker == (if p == "marker" then Some(v) else m.marker)
      && n.content == m.content
      && (forall j :: j in KNOWN ==> Prop(n.props, j) == if j == p then Some(v) else Prop(m.props, j))
      && (m.props.Keys <= KNOWN ==> n.props.Keys <= KNOWN)
  {
    hide Lower, Put;
  }

  /** The marker that assigning `attrs` in order leaves. */
  lemma {:induction false} AssignedMarker(attrs: Pairs<string>, m: UsjMarker)
    ensures Assigned(attrs, m).Some? <==> NoContentAttr(attrs)
    ensures Assigned(attrs, m).Some? ==>
      var r := Assigned(attrs, m).value;
      && Some(r.type_) == Or(LastNamed(attrs, "type"), Some(m.type_))
      && r.marker == Or(LastNamed(attrs, "marker"), m.marker)
      && r.content == m.content
      && (forall k :: k in KNOWN ==> Prop(r.props, k) == Or(LastNamed(attrs, k), Prop(m.props, k)))
      && (m.props.Keys <= KNOWN ==> r.props.Keys <= KNOWN)
  {
    hide Lower, Put, AssignedOne, KNOWN, Prop;
    if attrs != [] && Lower(attrs[0].0) != "content" {
      AssignedOneEffect(attrs[0].0, attrs[0].1, m);
      AssignedMarker(attrs[1..], AssignedOne(attrs[0].0, attrs[0].1, m));
    }
  }

  function Prop(props: map<string, string>, k: string): Option<string> {
    if k in props then Some(props[k]) else None
  }

  /** The attributes USJ has no property for are appended to the extension data in their order. */
  lemma {:induction false} AssignedExtra(attrs: Pairs<string>, m: UsjMarker)
    requires UniqueKeys(attrs) && NoContentAttr(attrs)
    requires forall k :: HasKey(attrs, k) ==> !HasKey(m.extra, k)
    ensures Assigned(attrs, m).Some? && Assigned(attrs, m).value.extra == m.extra + AsValues(Foreign(attrs))
  {
    if attrs == [] {
      assert m.extra + [] == m.extra;
    } else {
      var (k, v) := attrs[0];
      var next := AssignedOne(k, v, m);
      AssignedExtraOne(k, v, m);
      forall j | HasKey(attrs[1..], j)
        ensures !HasKey(next.extra, j)
      {
        HasKeyAppend(m.extra, [(k, StringValue(v))], j);
      }
      AssignedExtra(attrs[1..], next);
      AppendValue(m.extra, attrs);
    }
  }

  lemma AssignedExtraOne(k: string, v: string, m: UsjMarker)
    requires !HasKey(m.extra, k)
    ensures Lower(k) != "content" ==>
      AssignedOne(k, v, m).extra == if IsProperty(Lower(k)) then m.extra else m.extra + [(k, StringValue(v))]
  {
    PutNew(m.extra, k, StringValue(v));
  }

  lemma AppendValue(extra: Pairs<Value>, attrs: Pairs<string>)
    requires attrs != []
    ensures extra + AsValues(Foreign(attrs))
      == (if IsProperty(Lower(attrs[0].0)) then extra else extra + [(attrs[0].0, StringValue(attrs[0].1))])
         + AsValues(Foreign(attrs[1..]))
  {
    if !IsProperty(Lower(attrs[0].0)) {
      assert Foreign(attrs)[1..] == Foreign(attrs[1..]);
    }
  }

  lemma {:induction false} ForeignKeys(attrs: Pairs<string>, k: string)
    ensures HasKey(Foreign(attrs), k) <==> HasKey(attrs, k) && !IsProperty(Lower(k))
  {
    if attrs != [] {
      ForeignKeys(attrs[1..], k);
      if !IsProperty(Lower(attrs[0].0)) {
        assert Foreign(attrs)[1..] == Foreign(attrs[1..]);
      }
    }
  }

  lemma {:induction false} ForeignUnique(attrs: Pairs<string>)
    requires UniqueKeys(attrs)
    ensures UniqueKeys(Foreign(attrs))
  {
    if attrs != [] {
      ForeignUnique(attrs[1..]);
      if !IsProperty(Lower(attrs[0].0)) {
        ForeignKeys(attrs[1..], attrs[0].0);
        assert Foreign(attrs)[1..] == Foreign(attrs[1..]);
      }
    }
  }

  /** None of the keys of `p` is a key of `attrs` or one that extension data may not set. */
  predicate NewTo(p: Pairs<string>, attrs: Pairs<string>) {
    p == [] || (!HasKey(attrs, p[0].0) && p[0].0 !in {"type", "marker", "content"} && NewTo(p[1..], attrs))
  }

  lemma {:induction false} NewToMore(p: Pairs<string>, attrs: Pairs<string>, k: string, v: string)
    requires NewTo(p, attrs) && !HasKey(p, k)
    ensures NewTo(p, attrs + [(k, v)])
  {
    if p != [] {
      HasKeyAppend(attrs, [(k, v)], p[0].0);
      NewToMore(p[1..], attrs, k, v);
    }
  }

  lemma WithExtraStep(attrs: Pairs<string>, p: Pairs<string>)
    requires p != [] && NewTo(p, attrs)
    ensures WithExtra(attrs, AsValues(p)) == WithExtra(attrs + [p[0]], AsValues(p[1..]))
  {
    hide Without, Lower, HasKey;
    assert AsValues(p)[1..] == AsValues(p[1..]);
    PutNew(attrs, p[0].0, p[0].1);
    assert attrs + [p[0]] == Put(attrs, p[0].0, p[0].1);
  }

  /** New string values are appended as attributes. */
  lemma {:induction false} WithNewExtra(attrs: Pairs<string>, p: Pairs<string>)
    requires UniqueKeys(p) && NewTo(p, attrs)
    ensures WithExtra(attrs, AsValues(p)) == attrs + p
    decreases p
  {
    if p == [] {
      assert attrs + p == attrs;
    } else {
      hide WithExtra, Put, AsValues, HasKey;
      assert attrs + p == attrs + [p[0]] + p[1..];
      NewToMore(p[1..], attrs, p[0].0, p[0].1);
      WithExtraStep(attrs, p);
      WithNewExtra(attrs + [p[0]], p[1..]);
    }
  }

  // ----- attributes there and back

  lemma {:induction false} LowerOfSmall(s: string)
    requires forall i :: 0 <= i < |s| ==> 'a' <= s[i] <= 'z'
    ensures Lower(s) == s
  {
    if s != [] { LowerOfSmall(s[1..]); }
  }

  lemma KnownIsLower(k: string)
    requires IsProperty(k)
    ensures Lower(k) == k
  {
    hide Lower;
    LowerOfSmall(k);
  }

  lemma {:induction false} StandardKeys(m: UsjMarker, names: seq<string>, k: string)
    requires forall i :: 0 <= i < |names| ==> names[i] == "style" || names[i] in KNOWN
    requires HasKey(StandardAttrs(m, names), k)
    ensures k in KNOWN || k in {"style", "marker"}
  {
    hide KNOWN;
    if names != [] {
      HasKeyAppend(StandardAttr(m, names[0]), StandardAttrs(m, names[1..]), k);
      if HasKey(StandardAttrs(m, names[1..]), k) { StandardKeys(m, names[1..], k); }
    }
  }

  lemma {:induction false} StandardSame(e: Xml, m: UsjMarker, names: seq<string>)
    requires e.Element?
    requires forall i :: 0 <= i < |names| ==> names[i] == "style" || names[i] in KNOWN
    requires Some(m.type_) == Or(LastNamed(Unstyled(e.attrs), "type"), Some(TypeOf(e.name)))
    requires m.marker == NormalMarker(e)
    requires forall k :: k in KNOWN ==> Prop(m.props, k) == LastNamed(Unstyled(e.attrs), k)
    ensures StandardAttrs(m, names) == NormalStandards(e, names)
  {
    hide LastNamed, Unstyled, NormalMarker;
    if names != [] {
      StandardSame(e, m, names[1..]);
      assert StandardAttr(m, names[0]) == NormalStandard(e, names[0]);
    }
  }

  /** Foreign attributes never overwrite a standard one. */
  lemma {:induction false} ForeignIsNew(p: Pairs<string>, m: UsjMarker)
    requires forall k :: HasKey(p, k) ==> !IsProperty(Lower(k)) && k != "style"
    ensures NewTo(p, StandardAttrs(m, ATTRIBUTE_ORDER))
  {
    if p != [] {
      assert HasKey(p, p[0].0);
      forall k | HasKey(p[1..], k)
        ensures !IsProperty(Lower(k)) && k != "style"
      {
        assert HasKey(p, k);
      }
      ForeignIsNew(p[1..], m);
      if HasKey(StandardAttrs(m, ATTRIBUTE_ORDER), p[0].0) {
        StandardKeys(m, ATTRIBUTE_ORDER, p[0].0);
        KnownIsLower(p[0].0);
      }
      if p[0].0 in {"type", "marker", "content"} { KnownIsLower(p[0].0); }
    }
  }

  /** Known attributes come back in the fixed order, the others after them; the element keeps its name. */
  lemma {:induction false} AttributesNormal(e: Xml, m: UsjMarker)
    requires e.Element? && UniqueKeys(e.attrs)
    requires Assigned(Unstyled(e.attrs), Blank(TypeOf(e.name), Get(e.attrs, "style"))) == Some(m)
    ensures forall c :: AttributesOf(m.(content := c)) == NormalAttrs(e)
    ensures Strip(m.type_) == NormalName(e)
    ensures "eid" in m.props <==> LastNamed(Unstyled(e.attrs), "eid").Some?
  {
    hide Strip, Unstyled, Get, Foreign, LastNamed, StandardAttrs, NormalStandards;
    var attrs := Unstyled(e.attrs);
    var blank := Blank(TypeOf(e.name), Get(e.attrs, "style"));
    UnstyledUnique(e.attrs);
    ForeignUnique(attrs);
    AssignedMarker(attrs, blank);
    AssignedExtra(attrs, blank);
    assert blank.extra + AsValues(Foreign(attrs)) == AsValues(Foreign(attrs));
    forall k | HasKey(Foreign(attrs), k)
      ensures !IsProperty(Lower(k)) && k != "style"
    {
      ForeignKeys(attrs, k);
      UnstyledKeys(e.attrs, k);
    }
    forall c
      ensures AttributesOf(m.(content := c)) == NormalAttrs(e)
    {
      StandardSame(e, m.(content := c), ATTRIBUTE_ORDER);
      ForeignIsNew(Foreign(attrs), m.(content := c));
      WithNewExtra(StandardAttrs(m.(content := c), ATTRIBUTE_ORDER), Foreign(attrs));
    }
  }

  // ----- USX to USJ to USX

  /** Conversion to USJ fails on an attribute called `content`, whatever its case, and on nothing else. */
  lemma {:induction false} ConvertedIffReadable(e: Xml)
    requires e.Element?
    ensures Converted(e).Some? <==> Readable(e)
    decreases e, 1
  {
    AssignedMarker(Unstyled(e.attrs), Blank(TypeOf(e.name), Get(e.attrs, "style")));
    ContentsIffReadable(e.kids);
  }

  lemma {:induction false} ContentsIffReadable(kids: seq<Xml>)
    ensures ChildContents(kids).Some? <==> AllReadable(kids)
    decreases kids, 0
  {
    if kids != [] {
      ContentsIffReadable(kids[1..]);
      if kids[0].Element? { ConvertedIffReadable(kids[0]); }
    }
  }

  /** What the text in front of the first element adds. */
  function Before(kids: seq<Xml>, at: Position): seq<Content> {
    match at
    case First => LeadingText(kids)
    case AfterElement => FollowingText(kids)
    case AfterText => []
  }

  lemma {:induction false} NodesAppend(a: seq<Content>, b: seq<Content>)
    ensures Nodes(a + b) == Nodes(a) + Nodes(b)
  {
    if a == [] {
      assert a + b == b;
    } else {
      assert (a + b)[1..] == a[1..] + b;
      NodesAppend(a[1..], b);
    }
  }

  /** An element's USJ turns back into the element's normal form. */
  lemma {:induction false} ElementNormal(e: Xml)
    requires e.Element? && WellFormed(e) && Readable(e)
    ensures Converted(e).Some?
    ensures Node(Marker(Converted(e).value)) == Normal(e)
    ensures IsEndMilestone(e.name, Converted(e).value) <==> Dropped(e)
    decreases e, 1
  {
    hide Unstyled, Get, NormalAttrs, NormalName, AttributesOf, ChildContents, NormalKids, LeadingText;
    ConvertedIffReadable(e);
    KidsNormal(e.kids, First);
    var m := Assigned(Unstyled(e.attrs), Blank(TypeOf(e.name), Get(e.attrs, "style"))).value;
    AttributesNormal(e, m);
    var c := Converted(e).value;
    assert c == m.(content := c.content);
  }

  lemma {:induction false} KidsNormal(kids: seq<Xml>, at: Position)
    requires AllWellFormed(kids) && AllReadable(kids)
    ensures ChildContents(kids).Some?
    ensures Nodes(Before(kids, at) + ChildContents(kids).value) == NormalKids(kids, at)
    decreases kids, 0
  {
    hide Normal, Converted, Dropped, IsEndMilestone, WellFormed, Readable, ChildContents, Nodes;
    ContentsIffReadable(kids);
    if kids == [] {
      NothingNormal(at);
    } else if kids[0].Element? {
      ElementNormal(kids[0]);
      KidsNormal(kids[1..], AfterElement);
      ElementFirst(kids, at);
    } else {
      KidsNormal(kids[1..], AfterText);
      TextFirst(kids, at);
    }
  }

  lemma NothingNormal(at: Position)
    ensures Nodes(Before([], at) + ChildContents([]).value) == NormalKids([], at)
  {
    assert Before([], at) + [] == [];
  }

  lemma ElementFirst(kids: seq<Xml>, at: Position)
    requires kids != [] && kids[0].Element? && ChildContents(kids).Some?
    requires Node(Marker(Converted(kids[0]).value)) == Normal(kids[0])
    requires IsEndMilestone(kids[0].name, Converted(kids[0]).value) <==> Dropped(kids[0])
    requires Nodes(Before(kids[1..], AfterElement) + ChildContents(kids[1..]).value)
      == NormalKids(kids[1..], AfterElement)
    ensures Nodes(Before(kids, at) + ChildContents(kids).value) == NormalKids(kids, at)
  {
    hide Normal, Converted, Dropped, IsEndMilestone, Node;
    var child := Converted(kids[0]).value;
    var own := if IsEndMilestone(kids[0].name, child) then [] else [Marker(child)];
    var rest := FollowingText(kids[1..]) + ChildContents(kids[1..]).value;
    assert Before(kids, at) + ChildContents(kids).value == own + rest;
    NodesAppend(own, rest);
  }

  lemma TextFirst(kids: seq<Xml>, at: Position)
    requires kids != [] && !kids[0].Element? && ChildContents(kids).Some?
    requires Nodes(Before(kids[1..], AfterText) + ChildContents(kids[1..]).value) == NormalKids(kids[1..], AfterText)
    ensures Nodes(Before(kids, at) + ChildContents(kids).value) == NormalKids(kids, at)
  {
    hide Normal, Converted, Dropped, IsEndMilestone, IsNullOrXmlWhitespace, Ignorable;
    IgnorableExactly(kids[0].value);
    var rest := ChildContents(kids[1..]).value;
    assert [] + rest == rest;
    NodesAppend(Before(kids, at), rest);
  }

  lemma {:induction false} RootReadable(attrs: Pairs<string>, u: Usj)
    ensures RootAssigned(attrs, u).Some? <==> NoContentAttr(attrs)
  {
    if attrs != [] {
      var (k, v) := attrs[0];
      var p := Lower(k);
      RootReadable(attrs[1..], if p == "type" then u.(type_ := v) else if p == "version" then u.(version := v)
                               else u.(extra := Put(u.extra, k, StringValue(v))));
    }
  }

  /**
   * USX to USJ and back normalises the document below a fresh version 3.0 root. It fails exactly
   * when an attribute is called `content`.
   */
  lemma {:induction false} UsxComesBackNormal(root: Xml)
    requires root.Element? && WellFormed(root)
    ensures UsxToUsj(Some(root)).Some? <==> Readable(root)
    ensures UsxToUsj(Some(root)).Some? ==>
      UsjToUsx(UsxToUsj(Some(root)).value) == Element("usx", [("version", "3.0")], NormalKids(root.kids, First))
  {
    RootReadable(Unstyled(root.attrs), Usj(TypeOf(root.name), "", [], Null));
    ContentsIffReadable(root.kids);
    if AllReadable(root.kids) { KidsNormal(root.kids, First); }
  }

  // ----- what is said

  /** Text nodes are never adjacent, and white-space nodes are white. */
  predicate TextsApart(kids: seq<Xml>)
    decreases kids
  {
    kids == []
    || (&& (kids[0].Element? ==> TextsApart(kids[0].kids))
        && (kids[0].Whitespace? ==> White(kids[0].value))
        && (!kids[0].Element? && |kids| > 1 ==> kids[1].Element?)
        && TextsApart(kids[1..]))
  }

  /** All text that is not ignorable, in document order. */
  function Words(kids: seq<Xml>): seq<string>
    decreases kids
  {
    if kids == [] then []
    else (if kids[0].Element? then Words(kids[0].kids)
          else if Ignorable(kids[0].value) then [] else [kids[0].value]) + Words(kids[1..])
  }

  /** The same without what is inside the end of a verse or chapter. */
  function KeptWords(kids: seq<Xml>): seq<string>
    decreases kids
  {
    if kids == [] then []
    else (if kids[0].Element? then (if Dropped(kids[0]) then [] else KeptWords(kids[0].kids))
          else if Ignorable(kids[0].value) then [] else [kids[0].value]) + KeptWords(kids[1..])
  }

  lemma {:induction false} WordsAppend(a: seq<Xml>, b: seq<Xml>)
    ensures Words(a + b) == Words(a) + Words(b)
  {
    hide Ignorable;
    if a == [] {
      assert a + b == b;
    } else {
      assert (a + b)[1..] == a[1..] + b && (a + b)[0] == a[0];
      WordsAppend(a[1..], b);
    }
  }

  /** Normalising loses no text but that of dropped ends, and keeps the rest in order. */
  lemma {:induction false} NormalKeepsWords(kids: seq<Xml>, at: Position)
    requires TextsApart(kids)
    requires at.AfterText? && kids != [] ==> kids[0].Element?
    ensures Words(NormalKids(kids, at)) == KeptWords(kids)
    decreases kids
  {
    hide NormalName, NormalAttrs, Dropped, White;
    if kids != [] {
      var own, next := [], AfterText;
      if kids[0].Element? {
        next := AfterElement;
        if !Dropped(kids[0]) {
          own := [Normal(kids[0])];
          NormalKeepsWords(kids[0].kids, First);
        }
      } else if Kept(kids[0], at) {
        own := [Text(kids[0].value)];
      }
      NormalKeepsWords(kids[1..], next);
      WordsAppend(own, NormalKids(kids[1..], next));
      assert NormalKids(kids, at) == own + NormalKids(kids[1..], next);
    }
  }
}
