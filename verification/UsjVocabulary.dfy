/** The names USJ gives to elements, attributes and their order, and what it makes of the document's root. */
module UsjVocabulary {
  import opened Wrappers
  import opened UsjModel
  import opened UsjConversion
  import opened UsxNormalisation
  import opened UsjIdentity

  // ----- lower case

  const UPPER_CASE := "ABCDEFGHIJKLMNOPQRSTUVWXYZ"
  const LOWER_CASE := "abcdefghijklmnopqrstuvwxyz"

  /** Every letter of the alphabet becomes its lower-case one. */
  lemma LetterLowered(k: nat)
    requires k < 26
    ensures LowerChar(UPPER_CASE[k]) == LOWER_CASE[k]
  {
    assert UPPER_CASE[k] as int == 'A' as int + k && LOWER_CASE[k] as int == 'a' as int + k;
  }

  /** Nothing else changes. */
  lemma OthersStay(c: char)
    requires c !in UPPER_CASE
    ensures LowerChar(c) == c
  {
  }

  lemma {:induction false} LowerEach(s: string)
    ensures |Lower(s)| == |s| && forall i :: 0 <= i < |s| ==> Lower(s)[i] == LowerChar(s[i])
  {
    hide LowerChar;
    if s != [] { LowerEach(s[1..]); }
  }

  /** A string in lower case, letter by letter. */
  lemma {:induction false} LowerExactly(s: string, i: nat)
    requires i < |s|
    ensures |Lower(s)| == |s|
    ensures forall k :: 0 <= k < 26 && s[i] == UPPER_CASE[k] ==> Lower(s)[i] == LOWER_CASE[k]
    ensures s[i] !in UPPER_CASE ==> Lower(s)[i] == s[i]
  {
    hide Lower, LowerChar;
    LowerEach(s);
    forall k | 0 <= k < 26
      ensures LowerChar(UPPER_CASE[k]) == LOWER_CASE[k]
    {
      LetterLowered(k);
    }
    if s[i] !in UPPER_CASE { OthersStay(s[i]); }
  }

  // ----- types

  /** The prefix stands in `s` at `i`. */
  predicate PrefixAt(s: string, i: nat) {
    i + 6 <= |s| && s[i..i + 6] == "table:"
  }

  lemma PrefixLater(s: string)
    requires s != []
    ensures PrefixAt(s, 0) <==> TABLE_PREFIX <= s
    ensures forall i :: 0 <= i < |s[1..]| ==> (PrefixAt(s[1..], i) <==> PrefixAt(s, i + 1))
  {
    assert TABLE_PREFIX == "table:" && (|s| >= 6 ==> s[0..6] == s[..6]);
    assert forall i {:trigger PrefixAt(s[1..], i)} :: 0 <= i && i + 7 <= |s| ==> s[1..][i..i + 6] == s[i + 1..i + 7];
  }

  /** Removing the prefix goes from its first occurrence to the next behind it. */
  lemma {:induction false} StripFrom(a: string, b: string)
    requires forall i :: 0 <= i < |a| ==> !PrefixAt(a + "table:" + b, i)
    ensures Strip(a + "table:" + b) == a + Strip(b)
    decreases |a|
  {
    var s := a + "table:" + b;
    PrefixLater(s);
    if a == [] {
      assert s[6..] == b && s[..6] == "table:";
    } else {
      assert s[0] == a[0] && s[1..] == a[1..] + "table:" + b;
      StripFrom(a[1..], b);
      assert a == [a[0]] + a[1..];
    }
  }

  /** Without the prefix a type stays as it is. */
  lemma {:induction false} StripNothing(s: string)
    requires forall i :: 0 <= i < |s| ==> !PrefixAt(s, i)
    ensures Strip(s) == s
  {
    if s != [] {
      PrefixLater(s);
      StripNothing(s[1..]);
    }
  }

  /** Rows and cells get the prefix, unless an attribute gives the type. */
  lemma {:induction false} TypeGiven(e: Xml)
    requires e.Element? && Converted(e).Some?
    ensures var given := LastNamed(Unstyled(e.attrs), "type");
      Converted(e).value.type_
      == if given.Some? then given.value
         else if e.name == "row" then "table:row"
         else if e.name == "cell" then "table:cell"
         else e.name
    ensures Converted(e).value.marker == NormalMarker(e)
  {
    hide Unstyled, LastNamed, Get, ChildContents, LeadingText;
    AssignedMarker(Unstyled(e.attrs), Blank(TypeOf(e.name), Get(e.attrs, "style")));
  }

  // ----- attributes

  const WRITTEN_ORDER: seq<string> :=
    ["code", "caller", "number", "style", "altnumber", "pubnumber", "align", "category", "sid", "eid"]

  /** One attribute for each name. */
  predicate WrittenAs(m: UsjMarker, name: string, attr: (string, string)) {
    if name == "style" then
      m.marker == Some(attr.1) && attr.0 == if m.type_ == "unmatched" then "marker" else "style"
    else name in m.props && attr == (name, m.props[name])
  }

  lemma {:induction false} AllWritten(m: UsjMarker, names: seq<string>)
    requires m.marker.Some? && forall i :: 0 <= i < |names| ==> names[i] == "style" || names[i] in m.props
    ensures |StandardAttrs(m, names)| == |names|
    ensures forall i :: 0 <= i < |names| ==> WrittenAs(m, names[i], StandardAttrs(m, names)[i])
  {
    if names != [] {
      AllWritten(m, names[1..]);
      assert StandardAttrs(m, names)[1..] == StandardAttrs(m, names[1..]);
    }
  }

  /** A marker that has every property writes them in this order. */
  lemma {:induction false} AttributesInOrder(m: UsjMarker)
    requires m.props.Keys == KNOWN && m.marker.Some? && m.extra == []
    ensures |AttributesOf(m)| == 10
    ensures forall i :: 0 <= i < 10 ==> WrittenAs(m, WRITTEN_ORDER[i], AttributesOf(m)[i])
  {
    hide StandardAttrs, WrittenAs;
    NoExtra(StandardAttrs(m, WRITTEN_ORDER));
    AllWritten(m, WRITTEN_ORDER);
  }

  lemma NoExtra(attrs: Pairs<string>)
    ensures WithExtra(attrs, []) == attrs
  {
  }

  lemma {:induction false} PutGet<V>(p: Pairs<V>, k: string, v: V, j: string)
    ensures Get(Put(p, k, v), j) == if j == k then Some(v) else Get(p, j)
  {
    if p != [] && p[0].0 != k { PutGet(p[1..], k, v, j); }
  }

  lemma {:induction false} NoKeyNoValue<V>(p: Pairs<V>, k: string)
    ensures Get(p, k).None? <==> !HasKey(p, k)
  {
    if p != [] && p[0].0 != k { NoKeyNoValue(p[1..], k); }
  }

  lemma {:induction false} ExtraGet(attrs: Pairs<string>, extra: Pairs<Value>, k: string)
    requires UniqueKeys(extra)
    ensures Get(WithExtra(attrs, extra), k)
      == if k !in {"type", "marker", "content"} && Get(extra, k).Some? && Get(extra, k).value.StringValue?
         then Some(Get(extra, k).value.text) else Get(attrs, k)
    decreases extra
  {
    hide Put;
    if extra != [] {
      var (j, v) := extra[0];
      var attrs1 := if v.StringValue? && j !in {"type", "marker", "content"} then Put(attrs, j, v.text) else attrs;
      ExtraGet(attrs1, extra[1..], k);
      NoKeyNoValue(extra[1..], j);
      if v.StringValue? { PutGet(attrs, j, v.text, k); }
    }
  }

  lemma {:induction false} StandardGet(m: UsjMarker, names: seq<string>, k: string)
    requires forall i :: 0 <= i < |names| ==> names[i] == "style" || names[i] in KNOWN
    ensures Get(StandardAttrs(m, names), k)
      == if k in names && k != "style" then Prop(m.props, k)
         else if "style" in names && k == (if m.type_ == "unmatched" then "marker" else "style") then m.marker
         else None
  {
    assert "marker" !in KNOWN;
    hide KNOWN, Get, StandardAttr;
    if names == [] {
      NoKeyNoValue<string>([], k);
    } else {
      StandardGet(m, names[1..], k);
      GetAppend(StandardAttr(m, names[0]), StandardAttrs(m, names[1..]), k);
      OneGet(m, names[0], k);
      assert names == [names[0]] + names[1..];
    }
  }

  lemma OneGet(m: UsjMarker, name: string, k: string)
    ensures Get(StandardAttr(m, name), k)
      == if k == name && k != "style" then Prop(m.props, k)
         else if name == "style" && k == (if m.type_ == "unmatched" then "marker" else "style") then m.marker
         else None
  {
  }

  /** What an element's attribute is: extension data counts most, and then the property or the marker of that name. */
  lemma {:induction false} AttributeOf(m: UsjMarker, k: string)
    requires UniqueKeys(m.extra)
    ensures Get(AttributesOf(m), k)
      == if k !in {"type", "marker", "content"} && Get(m.extra, k).Some? && Get(m.extra, k).value.StringValue?
         then Some(Get(m.extra, k).value.text)
         else if k in WRITTEN_ORDER && k != "style" then Prop(m.props, k)
         else if k == (if m.type_ == "unmatched" then "marker" else "style") then m.marker
         else None
  {
    hide Get, StandardAttrs, WithExtra;
    StandardGet(m, ATTRIBUTE_ORDER, k);
    ExtraGet(StandardAttrs(m, ATTRIBUTE_ORDER), m.extra, k);
    assert ATTRIBUTE_ORDER == WRITTEN_ORDER;
  }

  // ----- the root

  /** The root's attributes that become extension data of the document: all but its type and version. */
  function RootForeign(attrs: Pairs<string>): Pairs<string> {
    if attrs == [] then []
    else (if Lower(attrs[0].0) in {"type", "version"} then [] else [attrs[0]]) + RootForeign(attrs[1..])
  }

  lemma {:induction false} RootExtra(attrs: Pairs<string>, u: Usj)
    requires UniqueKeys(attrs) && NoContentAttr(attrs) && forall k :: HasKey(attrs, k) ==> !HasKey(u.extra, k)
    ensures RootAssigned(attrs, u).Some?
    ensures var r := RootAssigned(attrs, u).value;
      r.extra == u.extra + AsValues(RootForeign(attrs)) && Some(r.type_) == Or(LastNamed(attrs, "type"), Some(u.type_))
  {
    hide Lower;
    if attrs == [] {
      assert u.extra + [] == u.extra;
    } else {
      var (k, v) := attrs[0];
      var p := Lower(k);
      var u1 := if p == "type" then u.(type_ := v) else if p == "version" then u.(version := v)
                else u.(extra := Put(u.extra, k, StringValue(v)));
      assert HasKey(attrs, k);
      PutNew(u.extra, k, StringValue(v));
      forall j | HasKey(attrs[1..], j)
        ensures !HasKey(u1.extra, j)
      {
        HasKeyAppend(u.extra, [(k, StringValue(v))], j);
      }
      RootExtra(attrs[1..], u1);
      RootValues(u.extra, attrs);
    }
  }

  lemma RootValues(extra: Pairs<Value>, attrs: Pairs<string>)
    requires attrs != []
    ensures extra + AsValues(RootForeign(attrs))
      == (if Lower(attrs[0].0) in {"type", "version"} then extra else extra + [(attrs[0].0, StringValue(attrs[0].1))])
         + AsValues(RootForeign(attrs[1..]))
  {
    var rest := RootForeign(attrs[1..]);
    assert [] + rest == rest;
    if Lower(attrs[0].0) !in {"type", "version"} {
      assert RootForeign(attrs)[1..] == rest;
    }
  }

  /**
   * Whatever the root is called, the document is USJ 3.1 with the root's other attributes as extension data. Its
   * contents are null exactly if there are none and the root is not of type `usx`.
   */
  lemma {:induction false} RootKept(root: Xml)
    requires root.Element? && WellFormed(root) && UsxToUsj(Some(root)).Some?
    ensures var u := UsxToUsj(Some(root)).value;
      && u.type_ == "USJ" && u.version == "3.1"
      && u.extra == AsValues(RootForeign(Unstyled(root.attrs)))
      && (u.content.Null? <==>
          && NormalKids(root.kids, First) == []
          && Or(LastNamed(Unstyled(root.attrs), "type"), Some(TypeOf(root.name))) != Some("usx"))
  {
    hide Unstyled, ChildContents, LeadingText, LastNamed, AsValues, RootForeign, Normal, Dropped;
    var u := Usj(TypeOf(root.name), "", [], Null);
    UnstyledUnique(root.attrs);
    RootReadable(Unstyled(root.attrs), u);
    RootExtra(Unstyled(root.attrs), u);
    assert [] + AsValues(RootForeign(Unstyled(root.attrs))) == AsValues(RootForeign(Unstyled(root.attrs)));
    ContentsIffReadable(root.kids);
    KidsNormal(root.kids, First);
  }

  lemma NoDocument()
    ensures UsxToUsj(None) == Some(Usj("USJ", "3.1", [], Items([])))
  {
  }
}
