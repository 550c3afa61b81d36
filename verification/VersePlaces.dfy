/** Which paragraphs verse text may stand in, and which hold a verse although it may not. */
module VersePlaces {
  import opened Wrappers
  import opened Decimal
  import opened UsxNodes
  import opened ChapterWalk

  // ----- the styles

  const PARAGRAPHS: set<string> := {
    "p", "nb", "m", "po", "pr", "cls", "pmo", "pm", "pmc", "pmr", "pi", "mi", "pc", "ph", "lit"
  }

  const POETRY: set<string> := {"q", "qr", "qc", "qa", "qm", "qd"}

  const LISTS: set<string> := {"lh", "li", "lf", "lim"}

  /** A blank line should hold no verse text but sometimes does; the last is that of the `book` element. */
  const OTHERS: set<string> := {"b", "id"}

  const VERSE_STYLES := PARAGRAPHS + POETRY + LISTS + OTHERS

  /** The style is `base`, or `base` with one digit for its level. */
  predicate AtLevel(style: string, base: string) {
    style == base || (|style| == |base| + 1 && base <= style && '0' <= style[|base|] <= '9')
  }

  /** What may hold verse text: a paragraph of a listed style at any level, and one without a style. */
  predicate HoldsVerses(style: Option<string>) {
    style.None? || style.value == "" || exists base :: base in VERSE_STYLES && AtLevel(style.value, base)
  }

  lemma {:induction false} VerseStyles(style: Option<string>)
    ensures CanParaContainVerseText(style) <==> HoldsVerses(style)
  {
    SameStyles();
    if style.Some? && style.value != "" {
      OneBase(style.value);
    }
  }

  lemma SameStyles()
    ensures VERSE_STYLES == PARAGRAPH_POETRY_LIST_STYLES
  {
  }

  /** The style without its level. */
  function Unlevelled(s: string): string
    requires s != ""
  {
    if s[|s| - 1] in DIGITS then s[..|s| - 1] else s
  }

  /** Only one listed style can be the base of a style. */
  lemma OneBase(s: string)
    requires s != ""
    ensures Unlevelled(s) in VERSE_STYLES <==> exists b :: b in VERSE_STYLES && AtLevel(s, b)
  {
    hide AtLevel;
    UnlevelledAt(s);
    forall b | b in VERSE_STYLES && AtLevel(s, b) ensures b == Unlevelled(s) {
      NoLevel(b);
      BaseUnlevelled(s, b);
    }
  }

  lemma UnlevelledAt(s: string)
    requires s != ""
    ensures AtLevel(s, Unlevelled(s))
  {
    IsDigit(s[|s| - 1]);
  }

  lemma BaseUnlevelled(s: string, base: string)
    requires s != "" && AtLevel(s, base) && EndsInLetter(base)
    ensures Unlevelled(s) == base
  {
    IsDigit(s[|s| - 1]);
    if s != base {
      assert s == base + [s[|base|]];
    }
  }

  lemma IsDigit(c: char)
    ensures c in DIGITS <==> '0' <= c <= '9'
  {
    if '0' <= c <= '9' {
      assert DIGITS[c as int - '0' as int] == c;
    }
  }

  /** No listed style ends in a digit, so a level is never part of the style. */
  lemma NoLevel(base: string)
    requires base in VERSE_STYLES
    ensures EndsInLetter(base)
  {
    hide EndsInLetter;
    if base in PARAGRAPHS {
      NoParagraphLevel(base);
    } else {
      NoOtherLevel(base);
    }
  }

  predicate EndsInLetter(style: string) {
    style != "" && !('0' <= style[|style| - 1] <= '9')
  }

  lemma NoParagraphLevel(base: string)
    requires base in PARAGRAPHS
    ensures EndsInLetter(base)
  {
  }

  lemma NoOtherLevel(base: string)
    requires base in POETRY + LISTS + OTHERS
    ensures EndsInLetter(base)
  {
  }

  /** A level makes no difference. */
  lemma LevelsAlike(base: string, digit: char)
    requires base != "" && base[|base| - 1] !in DIGITS && '0' <= digit <= '9'
    ensures CanParaContainVerseText(Some(base + [digit])) <==> CanParaContainVerseText(Some(base))
  {
    IsDigit(digit);
    assert (base + [digit])[..|base|] == base;
  }

  // ----- the verses

  /** Every node below, in document order. */
  function Below(ns: seq<Node>): seq<Node> {
    if ns == [] then []
    else [ns[0]] + (if ns[0].Elem? then Below(ns[0].kids) else []) + Below(ns[1..])
  }

  lemma {:induction false} DescendantBelow(ns: seq<Node>, name: string)
    ensures HasDescendant(ns, name) <==> exists n :: n in Below(ns) && IsElement(n, name)
  {
    if ns != [] {
      DescendantBelow(ns[1..], name);
      if ns[0].Elem? {
        DescendantBelow(ns[0].kids, name);
      }
      assert ns[0] in Below(ns);
    }
  }

  /** A verse stands in a paragraph that may not hold one. */
  predicate MisplacesVerse(n: Node) {
    n.Elem? && !HoldsVerses(Attr(n, "style")) && exists m :: m in Below(n.kids) && IsElement(m, "verse")
  }

  lemma {:induction false} MisplacedVerses(n: Node)
    requires n.Elem?
    ensures HasMisplacedVerse(n) <==> MisplacesVerse(n)
  {
    VerseStyles(Attr(n, "style"));
    DescendantBelow(n.kids, "verse");
  }
}
