/** USJ to USX and back gives the same USJ exactly for normal forms. */
module UsjIdentity {
  import opened Wrappers
  import opened UsjModel
  import opened UsjConversion
  import opened UsxNormalisation

  // ----- normal forms

  /** A table prefix only on rows and cells, and on all of them. */
  ghost predicate NormalType(t: string) {
    t == "table:row" || t == "table:cell"
    || (t != "row" && t != "cell" && forall i :: 0 <= i <= |t| ==> !(TABLE_PREFIX <= t[i..]))
  }

  /** Strings only, under names that are no property's and are not dropped. */
  predicate NormalExtra(extra: Pairs<Value>) {
    extra == []
    || (&& extra[0].1.StringValue?
        && !IsProperty(Lower(extra[0].0))
        && extra[0].0 !in {"style", "vid", "status"}
        && NormalExtra(extra[1..]))
  }

  ghost predicate NormalForm(m: UsjMarker)
    decreases m, 1
  {
    && NormalType(m.type_)
    && NormalExtra(m.extra)
    && match m.content
       case Null => m.type_ != USX_TYPE
       case Items(cs) => (cs == [] ==> m.type_ == USX_TYPE) && NormalItems(cs, First)
  }

  /** No adjacent strings, no ignorable string in front, no end of a verse or chapter. */
  ghost predicate NormalItems(cs: seq<Content>, at: Position)
    decreases cs, 0
  {
    cs == [] || (NormalItem(cs[0], at) && NormalItems(cs[1..], if cs[0].Str? then AfterText else AfterElement))
  }

  ghost predicate NormalItem(c: Content, at: Position)
    decreases c, 0
  {
    match c
    case Str(text) => Kept(Text(text), at)
    case Marker(m) => NormalForm(m) && !EndMarker(m)
  }

  predicate EndMarker(m: UsjMarker) {
    (m.type_ == "verse" || m.type_ == "chapter") && "eid" in m.props
  }

  /** A marker's properties are those it has, and its extension data has one value per name. */
  predicate Sound(m: UsjMarker)
    decreases m, 1
  {
    m.props.Keys <= KNOWN && UniqueKeys(m.extra) && (m.content.Items? ==> AllSound(m.content.items))
  }

  predicate AllSound(cs: seq<Content>)
    decreases cs, 0
  {
    cs == [] || (SoundItem(cs[0]) && AllSound(cs[1..]))
  }

  predicate SoundItem(c: Content)
    decreases c, 0
  {
    c.Marker? ==> Sound(c.marker)
  }

  // ----- types

  lemma {:induction false} StripShrinks(t: string)
    ensures |Strip(t)| <= |t|
    ensures Strip(t) == t <==> forall i :: 0 <= i <= |t| ==> !(TABLE_PREFIX <= t[i..])
  {
    if t == [] {
    } else if TABLE_PREFIX <= t {
      StripShrinks(t[6..]);
      assert t[0..] == t;
    } else {
      StripShrinks(t[1..]);
      assert forall i :: 0 <= i <= |t[1..]| ==> t[1..][i..] == t[i + 1..];
      assert forall i :: 1 <= i <= |t| ==> t[i..] == t[1..][i - 1..];
      assert t[0..] == t;
    }
  }

  lemma ShortStays(t: string)
    requires |t| < 6
    ensures Strip(t) == t && Strip(TABLE_PREFIX + t) == t
  {
    StripShrinks(t);
    assert (TABLE_PREFIX + t)[6..] == t;
  }

  lemma {:induction false} TypeComesBack(t: string)
    ensures TypeOf(Strip(t)) == t <==> NormalType(t)
  {
    hide Strip;
    StripShrinks(t);
    ShortStays("row");
    ShortStays("cell");
    assert "table:row" == TABLE_PREFIX + "row" && "table:cell" == TABLE_PREFIX + "cell";
  }

  // ----- attributes

  lemma {:induction false} LastNamedAppend(a: Pairs<string>, b: Pairs<string>, k: string)
    ensures LastNamed(a + b, k) == Or(LastNamed(b, k), LastNamed(a, k))
  {
    if a == [] {
      assert a + b == b;
    } else {
      assert (a + b)[1..] == a[1..] + b;
      LastNamedAppend(a[1..], b, k);
    }
  }

  lemma {:induction false} ForeignAppend(a: Pairs<string>, b: Pairs<string>)
    ensures Foreign(a + b) == Foreign(a) + Foreign(b)
  {
    if a == [] {
      assert a + b == b;
    } else {
      assert (a + b)[1..] == a[1..] + b;
      ForeignAppend(a[1..], b);
    }
  }

  lemma {:induction false} WithoutAppend(a: Pairs<string>, b: Pairs<string>, k: string)
    ensures Without(a + b, k) == Without(a, k) + Without(b, k)
  {
    if a == [] {
      assert a + b == b;
    } else {
      assert (a + b)[1..] == a[1..] + b;
      WithoutAppend(a[1..], b, k);
    }
  }

  lemma UnstyledAppend(a: Pairs<string>, b: Pairs<string>)
    ensures Unstyled(a + b) == Unstyled(a) + Unstyled(b)
  {
    WithoutAppend(a, b, "style");
    WithoutAppend(Without(a, "style"), Without(b, "style"), "vid");
    WithoutAppend(Without(Without(a, "style"), "vid"), Without(Without(b, "style"), "vid"), "status");
  }

  lemma {:induction false} GetAppend(a: Pairs<string>, b: Pairs<string>, k: string)
    ensures Get(a + b, k) == Or(Get(a, k), Get(b, k))
  {
    if a == [] {
      assert a + b == b;
    } else {
      assert (a + b)[1..] == a[1..] + b;
      GetAppend(a[1..], b, k);
    }
  }

  lemma NoneRead(k: string)
    ensures Unstyled([]) == [] && Foreign([]) == [] && NoContentAttr([]) && LastNamed([], k) == None
  {
  }

  lemma WithoutOne(name: string, value: string, k: string)
    ensures Without([(name, value)], k) == if name == k then [] else [(name, value)]
    ensures Without<string>([], k) == []
  {
    assert [(name, value)][1..] == [];
  }

  lemma OneRead(name: string, value: string, k: string)
    ensures Unstyled([(name, value)]) == if name in {"style", "vid", "status"} then [] else [(name, value)]
    ensures LastNamed([(name, value)], k) == if Lower(name) == k then Some(value) else None
    ensures Foreign([(name, value)]) == if IsProperty(Lower(name)) then [] else [(name, value)]
    ensures NoContentAttr([(name, value)]) <==> Lower(name) != "content"
    ensures Foreign([]) == [] && NoContentAttr([]) && LastNamed([], k) == None
  {
    hide Lower, IsProperty, Without;
    WithoutOne(name, value, "style");
    WithoutOne(name, value, "vid");
    WithoutOne(name, value, "status");
    assert [(name, value)][1..] == [];
    assert LastNamed([(name, value)][1..], k) == None;
  }

  /** What the attribute of one property sets. */
  lemma StandardAttrRead(m: UsjMarker, name: string, k: string)
    requires name == "style" || name in KNOWN
    requires k in KNOWN || k in {"type", "marker"}
    ensures var own := Unstyled(StandardAttr(m, name));
      && Foreign(own) == []
      && NoContentAttr(own)
      && LastNamed(own, k)
         == if k == name then Prop(m.props, k)
            else if name == "style" && k == "marker" && m.type_ == "unmatched" then m.marker
            else None
    ensures Get(StandardAttr(m, name), "style") == if name == "style" && m.type_ != "unmatched" then m.marker else None
  {
    hide Lower, Unstyled, Foreign, LastNamed, NoContentAttr;
    var attr := StandardAttr(m, name);
    if attr == [] {
      NoneRead(k);
    } else {
      OneRead(attr[0].0, attr[0].1, k);
      if attr[0].0 != "style" { KnownIsLower(attr[0].0); }
    }
  }

  /** What the standard attributes set. */
  lemma {:induction false} StandardRead(m: UsjMarker, names: seq<string>, k: string)
    requires forall i :: 0 <= i < |names| ==> names[i] == "style" || names[i] in KNOWN
    requires k in KNOWN || k in {"type", "marker"}
    ensures var own := Unstyled(StandardAttrs(m, names));
      && Foreign(own) == []
      && NoContentAttr(own)
      && LastNamed(own, k)
         == if k in names then Prop(m.props, k)
            else if "style" in names && k == "marker" && m.type_ == "unmatched" then m.marker
            else None
    ensures Get(StandardAttrs(m, names), "style")
      == if "style" in names && m.type_ != "unmatched" then m.marker else None
  {
    hide Unstyled, Foreign, LastNamed, NoContentAttr, Get, StandardAttr;
    if names == [] {
      NoneRead(k);
      GetNone("style");
    } else {
      var a, b := StandardAttr(m, names[0]), StandardAttrs(m, names[1..]);
      StandardAttrRead(m, names[0], k);
      StandardRead(m, names[1..], k);
      UnstyledAppend(a, b);
      ForeignAppend(Unstyled(a), Unstyled(b));
      LastNamedAppend(Unstyled(a), Unstyled(b), k);
      NoContentAppend(Unstyled(a), Unstyled(b));
      GetAppend(a, b, "style");
    }
  }

  lemma GetNone(k: string)
    ensures Get<string>([], k) == None
  {
  }

  lemma {:induction false} NoContentAppend(a: Pairs<string>, b: Pairs<string>)
    ensures NoContentAttr(a + b) <==> NoContentAttr(a) && NoContentAttr(b)
  {
    if a == [] {
      assert a + b == b;
    } else {
      assert (a + b)[1..] == a[1..] + b;
      NoContentAppend(a[1..], b);
    }
  }

  // ----- an element never repeats an attribute

  lemma {:induction false} PutKeys<V>(p: Pairs<V>, k: string, v: V, j: string)
    ensures HasKey(Put(p, k, v), j) <==> HasKey(p, j) || j == k
  {
    if p != [] { PutKeys(p[1..], k, v, j); }
  }

  lemma {:induction false} PutUnique<V>(p: Pairs<V>, k: string, v: V)
    requires UniqueKeys(p)
    ensures UniqueKeys(Put(p, k, v))
  {
    if p != [] && p[0].0 != k {
      PutUnique(p[1..], k, v);
      PutKeys(p[1..], k, v, p[0].0);
    }
  }

  lemma {:induction false} WithExtraUnique(attrs: Pairs<string>, extra: Pairs<Value>)
    requires UniqueKeys(attrs)
    ensures UniqueKeys(WithExtra(attrs, extra))
    decreases extra
  {
    hide UniqueKeys, Put;
    if extra != [] {
      var (k, v) := extra[0];
      if v.StringValue? && k !in {"type", "marker", "content"} {
        PutUnique(attrs, k, v.text);
        WithExtraUnique(Put(attrs, k, v.text), extra[1..]);
      } else {
        WithExtraUnique(attrs, extra[1..]);
      }
    }
  }

  lemma {:induction false} StandardUnique(m: UsjMarker, names: seq<string>)
    requires Distinct(names) && "marker" !in names
    ensures forall k :: HasKey(StandardAttrs(m, names), k) ==> k in names || (k == "marker" && "style" in names)
    ensures UniqueKeys(StandardAttrs(m, names))
  {
    if names != [] {
      var a, b := StandardAttr(m, names[0]), StandardAttrs(m, names[1..]);
      StandardUnique(m, names[1..]);
      forall k | HasKey(a + b, k)
        ensures k in names || (k == "marker" && "style" in names)
      {
        HasKeyAppend(a, b, k);
      }
      assert if a == [] then a + b == b else (a + b)[1..] == b;
    }
  }

  lemma {:induction false} AttributesUnique(m: UsjMarker)
    ensures UniqueKeys(AttributesOf(m))
  {
    hide StandardAttrs, WithExtra, UniqueKeys;
    assert Distinct(ATTRIBUTE_ORDER);
    StandardUnique(m, ATTRIBUTE_ORDER);
    WithExtraUnique(StandardAttrs(m, ATTRIBUTE_ORDER), m.extra);
  }

  // ----- extension data

  /** The string values. */
  function Strings(extra: Pairs<Value>): Pairs<string> {
    if extra == [] then []
    else if extra[0].1.StringValue? then [(extra[0].0, extra[0].1.text)] + Strings(extra[1..])
    else Strings(extra[1..])
  }

  lemma {:induction false} NormalExtraRead(extra: Pairs<Value>, k: string)
    requires NormalExtra(extra)
    requires k in KNOWN || k in {"type", "marker"}
    ensures var p := Strings(extra);
      && AsValues(p) == extra
      && Unstyled(p) == p
      && Foreign(p) == p
      && NoContentAttr(p)
      && LastNamed(p, k) == None
      && Get(p, "style") == None
  {
    hide Unstyled, Lower, Foreign, LastNamed;
    if extra == [] {
      NoneRead(k);
    } else {
      var name, value := extra[0].0, extra[0].1.text;
      var rest := Strings(extra[1..]);
      NormalExtraRead(extra[1..], k);
      OneRead(name, value, k);
      UnstyledAppend([(name, value)], rest);
      ForeignAppend([(name, value)], rest);
      LastNamedAppend([(name, value)], rest, k);
      assert Strings(extra)[1..] == rest;
    }
  }

  lemma {:induction false} NormalExtraOf(p: Pairs<string>)
    requires forall k :: HasKey(p, k) ==> !IsProperty(Lower(k)) && k !in {"style", "vid", "status"}
    ensures NormalExtra(AsValues(p))
  {
    hide Lower, IsProperty;
    if p != [] {
      assert HasKey(p, p[0].0);
      assert AsValues(p)[1..] == AsValues(p[1..]);
      forall k | HasKey(p[1..], k)
        ensures !IsProperty(Lower(k)) && k !in {"style", "vid", "status"}
      {
        assert HasKey(p, k);
      }
      NormalExtraOf(p[1..]);
    }
  }

  lemma {:induction false} StringsKeys(extra: Pairs<Value>, k: string)
    ensures HasKey(Strings(extra), k) ==> HasKey(extra, k)
  {
    if extra != [] { StringsKeys(extra[1..], k); }
  }

  lemma {:induction false} NormalExtraNew(extra: Pairs<Value>)
    requires NormalExtra(extra) && UniqueKeys(extra)
    ensures UniqueKeys(Strings(extra))
    ensures forall k :: HasKey(Strings(extra), k) ==> !IsProperty(Lower(k)) && k != "style"
  {
    hide Lower, IsProperty;
    if extra != [] {
      NormalExtraNew(extra[1..]);
      StringsKeys(extra[1..], extra[0].0);
      assert Strings(extra)[1..] == Strings(extra[1..]);
    }
  }

  /** The attributes of a marker with normal extension data. */
  lemma AttributesSplit(m: UsjMarker)
    requires NormalExtra(m.extra) && UniqueKeys(m.extra)
    ensures AttributesOf(m) == StandardAttrs(m, ATTRIBUTE_ORDER) + Strings(m.extra)
  {
    hide Unstyled, Lower, Foreign, LastNamed, StandardAttrs, Put, Get, WithExtra;
    NormalExtraRead(m.extra, "type");
    NormalExtraNew(m.extra);
    ForeignIsNew(Strings(m.extra), m);
    WithNewExtra(StandardAttrs(m, ATTRIBUTE_ORDER), Strings(m.extra));
  }

  /** What a marker is read back as, before its contents. */
  function Reread(m: UsjMarker): Option<UsjMarker> {
    var attrs := AttributesOf(m);
    Assigned(Unstyled(attrs), Blank(TypeOf(Strip(m.type_)), Get(attrs, "style")))
  }

  lemma NormalRead(m: UsjMarker, k: string)
    requires NormalExtra(m.extra) && UniqueKeys(m.extra)
    requires k in KNOWN || k in {"type", "marker"}
    ensures var attrs := Unstyled(AttributesOf(m));
      && AsValues(Foreign(attrs)) == m.extra
      && NoContentAttr(attrs)
      && LastNamed(attrs, k)
         == if k in KNOWN then Prop(m.props, k) else if k == "marker" && m.type_ == "unmatched" then m.marker else None
    ensures Get(AttributesOf(m), "style") == if m.type_ != "unmatched" then m.marker else None
  {
    hide Unstyled, Lower, Foreign, LastNamed, NoContentAttr, StandardAttrs, AttributesOf, Get;
    var a, b := StandardAttrs(m, ATTRIBUTE_ORDER), Strings(m.extra);
    AttributesSplit(m);
    StandardRead(m, ATTRIBUTE_ORDER, k);
    NormalExtraRead(m.extra, k);
    UnstyledAppend(a, b);
    ForeignAppend(Unstyled(a), b);
    LastNamedAppend(Unstyled(a), b, k);
    NoContentAppend(Unstyled(a), b);
    GetAppend(a, b, "style");
  }

  lemma ExtraComesBack(m: UsjMarker)
    requires UniqueKeys(m.extra)
    requires Reread(m).Some?
    ensures Reread(m).value.extra == m.extra <==> NormalExtra(m.extra)
  {
    hide Unstyled, Lower, Foreign, LastNamed, AttributesOf, Get, IsProperty, KNOWN;
    var attrs := Unstyled(AttributesOf(m));
    var blank := Blank(TypeOf(Strip(m.type_)), Get(AttributesOf(m), "style"));
    AttributesUnique(m);
    UnstyledUnique(AttributesOf(m));
    AssignedMarker(attrs, blank);
    AssignedExtra(attrs, blank);
    assert blank.extra + AsValues(Foreign(attrs)) == AsValues(Foreign(attrs));
    forall k | HasKey(Foreign(attrs), k)
      ensures !IsProperty(Lower(k)) && k !in {"style", "vid", "status"}
    {
      ForeignKeys(attrs, k);
      UnstyledKeys(AttributesOf(m), k);
    }
    NormalExtraOf(Foreign(attrs));
    if NormalExtra(m.extra) { NormalRead(m, "type"); }
  }

  /** Type, marker, properties and extension data survive exactly when the type and the extension data are normal. */
  lemma {:induction false} AttributesComeBack(m: UsjMarker)
    requires m.props.Keys <= KNOWN && UniqueKeys(m.extra)
    ensures Reread(m) == Some(m.(content := Null)) <==> NormalType(m.type_) && NormalExtra(m.extra)
  {
    hide Unstyled, Lower, Foreign, LastNamed, AttributesOf, Get, NormalType, Strip, Assigned, NormalExtra;
    var attrs := Unstyled(AttributesOf(m));
    var blank := Blank(TypeOf(Strip(m.type_)), Get(AttributesOf(m), "style"));
    TypeComesBack(m.type_);
    AssignedMarker(attrs, blank);
    if Reread(m).Some? { ExtraComesBack(m); }
    if NormalExtra(m.extra) {
      NormalRead(m, "type");
      NormalRead(m, "marker");
      forall k | k in KNOWN
        ensures Prop(Reread(m).value.props, k) == Prop(m.props, k)
      {
        NormalRead(m, k);
      }
      assert Reread(m).value.props == m.props;
    }
  }

  // ----- contents

  /** What a list of contents is read back as when it starts at `at`. */
  function Back(cs: seq<Content>, at: Position): Option<seq<Content>> {
    var kids := Nodes(cs);
    var contents := ChildContents(kids);
    if contents.None? then None else Some(Before(kids, at) + contents.value)
  }

  /** What one item is read back as. */
  function Own(c: Content, at: Position): Option<seq<Content>> {
    match c
    case Str(text) => Some(if Kept(Text(text), at) then [c] else [])
    case Marker(m) =>
      var back := Converted(Node(c));
      if back.None? then None
      else Some(if IsEndMilestone(Strip(m.type_), back.value) then [] else [Marker(back.value)])
  }

  lemma {:induction false} BackStep(cs: seq<Content>, at: Position)
    requires cs != []
    ensures var own := Own(cs[0], at);
      var rest := Back(cs[1..], if cs[0].Str? then AfterText else AfterElement);
      Back(cs, at) == if own.None? || rest.None? then None else Some(own.value + rest.value)
  {
    hide AttributesOf, Strip, Converted, IsNullOrXmlWhitespace, Ignorable;
    var kids := Nodes(cs);
    assert kids[1..] == Nodes(cs[1..]) && kids[0] == Node(cs[0]);
    if cs[0].Str? {
      IgnorableExactly(cs[0].text);
      var contents := ChildContents(kids[1..]);
      assert contents.Some? ==> [] + contents.value == contents.value;
    } else {
      var own, contents := Own(cs[0], at), ChildContents(kids[1..]);
      if own.Some? && contents.Some? {
        AppendAll(own.value, FollowingText(kids[1..]), contents.value);
      }
    }
  }

  lemma AppendAll<T>(a: seq<T>, b: seq<T>, c: seq<T>)
    ensures [] + (a + b + c) == a + (b + c)
  {
  }

  lemma {:induction false} BackShrinks(cs: seq<Content>, at: Position)
    ensures Back(cs, at).Some? ==> |Back(cs, at).value| <= |cs|
  {
    hide Own;
    if cs != [] {
      BackStep(cs, at);
      BackShrinks(cs[1..], if cs[0].Str? then AfterText else AfterElement);
      OwnShort(cs[0], at);
    }
  }

  lemma OwnShort(c: Content, at: Position)
    ensures Own(c, at).Some? ==> |Own(c, at).value| <= 1
  {
  }

  /** A list of contents comes back exactly when each of its items does. */
  lemma {:induction false} ItemsComeBack(cs: seq<Content>, at: Position)
    requires AllSound(cs)
    ensures Back(cs, at) == Some(cs) <==> NormalItems(cs, at)
    decreases cs, 0
  {
    hide Own, Back, NormalItem, SoundItem;
    if cs == [] {
      NothingBack(at);
    } else {
      var next := if cs[0].Str? then AfterText else AfterElement;
      BackStep(cs, at);
      OwnShort(cs[0], at);
      BackShrinks(cs[1..], next);
      ItemComesBack(cs[0], at);
      ItemsComeBack(cs[1..], next);
      assert cs == [cs[0]] + cs[1..];
      if Back(cs, at) == Some(cs) {
        SplitByLength(Own(cs[0], at).value, Back(cs[1..], next).value, cs[0], cs[1..]);
      }
    }
  }

  lemma NothingBack(at: Position)
    ensures Back([], at) == Some([])
  {
    assert Nodes([]) == [] && ChildContents([]) == Some([]);
    assert Before([], at) + [] == [];
  }

  lemma SplitByLength<T>(a: seq<T>, b: seq<T>, x: T, rest: seq<T>)
    requires a + b == [x] + rest && |a| <= 1 && |b| <= |rest|
    ensures a == [x] && b == rest
  {
    assert (a + b)[0] == x;
    assert (a + b)[1..] == b && ([x] + rest)[1..] == rest;
  }

  lemma {:induction false} ItemComesBack(c: Content, at: Position)
    requires SoundItem(c)
    ensures Own(c, at) == Some([c]) <==> NormalItem(c, at)
    decreases c, 0
  {
    hide AttributesOf, Strip, Converted, NormalForm, Sound;
    if c.Marker? {
      var m := c.marker;
      MarkerComesBack(m);
      if Converted(Node(c)) == Some(m) {
        FormType(m);
        TypeComesBack(m.type_);
      }
    }
  }

  /** The name of a verse or chapter is its type. */
  lemma FormType(m: UsjMarker)
    requires NormalForm(m)
    ensures NormalType(m.type_)
    ensures Strip(m.type_) in {"verse", "chapter"} <==> m.type_ in {"verse", "chapter"}
  {
    hide Strip, NormalType;
    TypeComesBack(m.type_);
  }

  function ItemsOf(c: Contents): seq<Content> {
    if c.Null? then [] else c.items
  }

  /** Reading a written marker: first its attributes, then its contents. */
  lemma MarkerReread(m: UsjMarker)
    ensures var back := Back(ItemsOf(m.content), First);
      Converted(Node(Marker(m)))
      == if Reread(m).None? || back.None? then None
         else Some(Reread(m).value.(content :=
           if back.value == [] && Reread(m).value.type_ != USX_TYPE then Null else Items(back.value)))
  {
    hide AttributesOf, Strip, Unstyled, Get, LeadingText, ChildContents, Assigned;
  }

  lemma {:induction false} MarkerComesBack(m: UsjMarker)
    requires Sound(m)
    ensures Converted(Node(Marker(m))) == Some(m) <==> NormalForm(m)
    decreases m, 1
  {
    hide Reread, Back, Converted, Node, NormalType, NormalExtra, NormalItems;
    MarkerReread(m);
    AttributesComeBack(m);
    if m.content.Items? {
      ItemsComeBack(m.content.items, First);
    } else {
      NothingBack(First);
    }
    if Reread(m).Some? { RereadNothing(m); }
  }

  lemma RereadNothing(m: UsjMarker)
    requires Reread(m).Some?
    ensures Reread(m).value.content == Null
  {
    AssignedMarker(Unstyled(AttributesOf(m)), Blank(TypeOf(Strip(m.type_)), Get(AttributesOf(m), "style")));
  }

  /**
   * A document comes back exactly when its type, version and root data are the standard ones and its contents are
   * normal.
   */
  lemma {:induction false} UsjComesBack(u: Usj)
    requires u.content.Items? ==> AllSound(u.content.items)
    ensures UsxToUsj(Some(UsjToUsx(u))) == Some(u)
      <==> u.type_ == "USJ" && u.version == "3.1" && u.extra == []
           && u.content.Items? && NormalItems(u.content.items, First)
  {
    hide NormalItems, AllSound, Unstyled, AttributesOf, Strip, Lower, Get, Put;
    RootAttributes();
    if u.content.Items? {
      ItemsComeBack(u.content.items, First);
    } else {
      NothingBack(First);
    }
  }

  lemma RootAttributes()
    ensures RootAssigned(Unstyled([("version", "3.0")]), Usj(TypeOf("usx"), "", [], Null))
      == Some(Usj("usx", "3.0", [], Null))
  {
    hide Lower, Unstyled, Put;
    OneRead("version", "3.0", "type");
    LowerOfSmall("version");
    assert [("version", "3.0")][1..] == [];
  }
}
