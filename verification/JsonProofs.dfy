/** The JSON parser accepts exactly the printed trees and returns the tree that was printed. */
module JsonProofs {
  import opened Base
  import opened Json

  // ---------------------------------------------------------------------------------------
  // Cutting off a prefix

  lemma {:induction false} TakeSpaceIs(gap: string, rest: string)
    requires AllSpace(gap) && (rest == "" || !IsSpace(rest[0]))
    ensures TakeSpace(gap + rest) == Cut(gap, rest)
  {
    if gap == "" {
      assert gap + rest == rest;
    } else {
      assert (gap + rest)[1..] == gap[1..] + rest;
      TakeSpaceIs(gap[1..], rest);
    }
  }

  /** What may follow an atom: nothing, or a character that ends it. */
  predicate Delimited(rest: string) {
    rest == "" || !IsAtomChar(rest[0])
  }

  lemma {:induction false} TakeAtomIs(text: string, rest: string)
    requires (forall i :: 0 <= i < |text| ==> IsAtomChar(text[i])) && Delimited(rest)
    ensures TakeAtom(text + rest) == Cut(text, rest)
  {
    if text == "" {
      assert text + rest == rest;
    } else {
      assert (text + rest)[1..] == text[1..] + rest;
      TakeAtomIs(text[1..], rest);
    }
  }

  lemma {:induction false} CharLengthPrefix(s: string, rest: string)
    requires s != "" && CharLength(s).Some?
    ensures CharLength(s + rest) == CharLength(s)
  {
    assert forall i :: 0 <= i < |s| ==> (s + rest)[i] == s[i];
  }

  lemma {:induction false} CutInside(body: string, more: string, k: nat)
    requires k <= |body|
    ensures (body + more)[k..] == body[k..] + more && (body + more)[..k] + body[k..] == body
  {
  }

  lemma {:induction false} TakeBodyStep(s: string, c: Cut)
    requires s != "" && CharLength(s).Some? && TakeBody(s[CharLength(s).value..]) == Some(c)
    ensures TakeBody(s) == Some(Cut(s[..CharLength(s).value] + c.head, c.rest))
  {
  }

  lemma {:induction false} TakeBodyIs(body: string, rest: string)
    requires IsBody(body)
    ensures TakeBody(body + (['\"'] + rest)) == Some(Cut(body, rest))
    decreases |body|
  {
    var s := body + (['\"'] + rest);
    if body == "" {
      assert s == ['\"'] + rest;
    } else {
      var k := CharLength(body).value;
      CharLengthPrefix(body, ['\"'] + rest);
      CutInside(body, ['\"'] + rest, k);
      TakeBodyIs(body[k..], rest);
      TakeBodyStep(s, Cut(body[k..], rest));
    }
  }

  /** A character does not look beyond its own end. */
  lemma {:induction false} CharLengthOfPrefix(s: string, n: nat)
    requires s != "" && CharLength(s).Some? && CharLength(s).value <= n <= |s|
    ensures CharLength(s[..n]) == CharLength(s)
  {
    assert forall i :: 0 <= i < n ==> s[..n][i] == s[i];
  }

  /** One more character in front of a body is a body. */
  lemma {:induction false} BodyCons(s: string, body: string)
    requires s != "" && CharLength(s).Some? && IsBody(body)
    ensures IsBody(s[..CharLength(s).value] + body)
  {
    var k := CharLength(s).value;
    CharLengthOfPrefix(s, k);
    CharLengthPrefix(s[..k], body);
    assert (s[..k] + body)[k..] == body;
  }

  lemma {:induction false} Assoc(a: string, b: string, c: string)
    ensures (a + b) + c == a + (b + c)
  {
  }

  lemma {:induction false} CutSound(s: string, k: nat, head: string, rest: string)
    requires k <= |s| && s[k..] == head + (['\"'] + rest)
    ensures s == (s[..k] + head) + (['\"'] + rest)
  {
    Assoc(s[..k], head, ['\"'] + rest);
    assert s == s[..k] + s[k..];
  }

  lemma {:induction false} TakeBodySound(s: string)
    requires TakeBody(s).Some?
    ensures
      var c := TakeBody(s).value;
      s == c.head + (['\"'] + c.rest) && IsBody(c.head)
    decreases |s|
  {
    if s[0] == '\"' {
      assert s == "" + (['\"'] + s[1..]);
    } else {
      var k := CharLength(s).value;
      TakeBodySound(s[k..]);
      var d := TakeBody(s[k..]).value;
      BodyCons(s, d.head);
      CutSound(s, k, d.head, d.rest);
    }
  }

  lemma {:induction false} Uncons(s: string, c: char)
    requires Starts(s, c)
    ensures s == [c] + s[1..]
  {
  }

  // ---------------------------------------------------------------------------------------
  // Soundness: what is parsed is what was there

  lemma {:induction false} ParseLabelSound(s: string, isObject: bool)
    requires ParseLabel(s, isObject).Some?
    ensures
      var p := ParseLabel(s, isObject).value;
      s == PrintLabelOnto(p.tree, p.rest) && LabelOk(p.tree, isObject)
  {
    if isObject {
      var a := TakeSpace(s);
      Uncons(a.rest, '\"');
      TakeBodySound(a.rest[1..]);
      var key := TakeBody(a.rest[1..]).value;
      Uncons(TakeSpace(key.rest).rest, ':');
    }
  }

  lemma {:induction false} ParseValueSound(s: string)
    requires ParseValue(s).Some?
    ensures
      var p := ParseValue(s).value;
      s == PrintOnto(p.tree, p.rest) && WellFormed(p.tree)
    decreases |s|, 0
  {
    if Starts(s, '\"') {
      Uncons(s, '\"');
      TakeBodySound(s[1..]);
    } else if Starts(s, '[') || Starts(s, '{') {
      var isObject := Starts(s, '{');
      Uncons(s, Opening(isObject));
      var a := TakeSpace(s[1..]);
      if Starts(a.rest, Closing(isObject)) {
        Uncons(a.rest, Closing(isObject));
      } else {
        ParseItemsSound(s[1..], isObject);
        Uncons(ParseItems(s[1..], isObject).value.rest, Closing(isObject));
      }
    }
  }

  lemma {:induction false} ParseItemsSound(s: string, isObject: bool)
    requires ParseItems(s, isObject).Some?
    ensures
      var p := ParseItems(s, isObject).value;
      s == PrintItemsOnto(p.tree, p.rest) && ItemsOk(p.tree, isObject)
    decreases |s|, 1
  {
    ParseLabelSound(s, isObject);
    var tag := ParseLabel(s, isObject).value;
    var a := TakeSpace(tag.rest);
    ParseValueSound(a.rest);
    var b := TakeSpace(ParseValue(a.rest).value.rest);
    if Starts(b.rest, ',') {
      Uncons(b.rest, ',');
      ParseItemsSound(b.rest[1..], isObject);
    }
  }

  /** Everything the parser accepts is the text of a well-formed document, character for character. */
  lemma {:induction false} ParseIsSound(s: string)
    requires Parse(s).Some?
    ensures DocumentOk(Parse(s).value) && PrintDocument(Parse(s).value) == s
  {
    var a := TakeSpace(s);
    ParseValueSound(a.rest);
    var v := ParseValue(a.rest).value;
    assert v.rest == TakeSpace(v.rest).head + "";
  }

  // ---------------------------------------------------------------------------------------
  // Completeness: what was printed is what is parsed

  /** The first character of a value: never whitespace, never a closing bracket. */
  predicate StartsValue(s: string) {
    s != "" && (s[0] == '\"' || s[0] == '[' || s[0] == '{' || IsAtomChar(s[0]))
  }

  lemma {:induction false} PrintStartsValue(t: Tree, tail: string)
    requires t.Atom? ==> IsAtom(t.text)
    ensures StartsValue(PrintOnto(t, tail))
  {
  }

  lemma {:induction false} ParseLabelComplete(l: Label, isObject: bool, tail: string)
    requires LabelOk(l, isObject)
    ensures ParseLabel(PrintLabelOnto(l, tail), isObject) == Some(Parsed(l, tail))
  {
    if isObject {
      var afterKey := l.after + ([':'] + tail);
      TakeSpaceIs(l.before, PrintTextOnto(l.key, afterKey));
      TakeBodyIs(l.key, afterKey);
      TakeSpaceIs(l.after, [':'] + tail);
    }
  }

  lemma {:induction false} NullIsAtom()
    ensures IsAtom("null")
  {
  }

  lemma {:induction false} ParseAtomComplete(text: string, tail: string)
    requires IsAtom(text) && Delimited(tail)
    ensures ParseValue(PrintOnto(Atom(text), tail)) == Some(Parsed(Atom(text), tail))
  {
    TakeAtomIs(text, tail);
    assert text != "";
    assert (text + tail)[0] == text[0];
  }

  lemma {:induction false} ParseTextComplete(body: string, tail: string)
    requires IsBody(body)
    ensures ParseValue(PrintOnto(Text(body), tail)) == Some(Parsed(Text(body), tail))
  {
    TakeBodyIs(body, tail);
    assert PrintTextOnto(body, tail)[1..] == body + (['\"'] + tail);
  }

  lemma {:induction false} ParseEmptyComplete(isObject: bool, gap: string, tail: string)
    requires AllSpace(gap)
    ensures ParseValue(PrintOnto(Empty(isObject, gap), tail)) == Some(Parsed(Empty(isObject, gap), tail))
  {
    TakeSpaceIs(gap, [Closing(isObject)] + tail);
    assert PrintOnto(Empty(isObject, gap), tail)[1..] == gap + ([Closing(isObject)] + tail);
  }

  lemma {:induction false} ParseGroupComplete(inner: string, isObject: bool, items: Items, tail: string)
    requires ParseItems(inner, isObject) == Some(Parsed(items, [Closing(isObject)] + tail))
    requires !Starts(TakeSpace(inner).rest, Closing(isObject))
    ensures ParseGroup(inner, isObject) == Some(Parsed(Group(isObject, items), tail))
  {
    assert ([Closing(isObject)] + tail)[1..] == tail;
  }

  lemma {:induction false} ParseBracket(inner: string, isObject: bool)
    ensures ParseValue([Opening(isObject)] + inner) == ParseGroup(inner, isObject)
  {
    assert ([Opening(isObject)] + inner)[1..] == inner;
  }

  lemma {:induction false} ParseValueComplete(t: Tree, tail: string)
    requires WellFormed(t) && Delimited(tail)
    ensures ParseValue(PrintOnto(t, tail)) == Some(Parsed(t, tail))
    decreases t, 0
  {
    match t
    case Atom(text) => ParseAtomComplete(text, tail);
    case Text(body) => ParseTextComplete(body, tail);
    case Empty(isObject, gap) => ParseEmptyComplete(isObject, gap, tail);
    case Group(isObject, items) =>
      var rest := [Closing(isObject)] + tail;
      ParseItemsComplete(items, isObject, rest);
      assert WellFormed(items.item);
      ItemsDoNotClose(items, isObject, rest);
      ParseGroupComplete(PrintItemsOnto(items, rest), isObject, items, tail);
      ParseBracket(PrintItemsOnto(items, rest), isObject);
  }

  /** The first thing inside a non-empty group is not its closing bracket. */
  lemma {:induction false} ItemsDoNotClose(i: Items, isObject: bool, tail: string)
    requires LabelOk(i.tag, isObject) && AllSpace(i.before) && (i.item.Atom? ==> IsAtom(i.item.text))
    ensures !Starts(TakeSpace(PrintItemsOnto(i, tail)).rest, Closing(isObject))
  {
    var next := i.after + if i.One? then tail else [','] + PrintItemsOnto(i.rest, tail);
    var item := PrintOnto(i.item, next);
    PrintStartsValue(i.item, next);
    if isObject {
      TakeSpaceIs(i.tag.before, PrintTextOnto(i.tag.key, i.tag.after + ([':'] + (i.before + item))));
    } else {
      TakeSpaceIs(i.before, item);
    }
  }

  lemma {:induction false} GapDelimits(gap: string, more: string)
    requires AllSpace(gap) && Delimited(more)
    ensures Delimited(gap + more)
  {
    if gap == "" {
      assert gap + more == more;
    }
  }

  /** One item, up to the comma or bracket `next` starts with. */
  lemma {:induction false} ParseItemComplete(i: Items, isObject: bool, next: string)
    requires LabelOk(i.tag, isObject) && AllSpace(i.before) && WellFormed(i.item) && AllSpace(i.after)
    requires next != "" && !IsSpace(next[0])
    requires ParseValue(PrintOnto(i.item, i.after + next)) == Some(Parsed(i.item, i.after + next))
    ensures
      var s := PrintLabelOnto(i.tag, i.before + PrintOnto(i.item, i.after + next));
      var tag := ParseLabel(s, isObject);
      && tag.Some? && tag.value.tree == i.tag
      && TakeSpace(tag.value.rest) == Cut(i.before, PrintOnto(i.item, i.after + next))
      && TakeSpace(i.after + next) == Cut(i.after, next)
  {
    var item := PrintOnto(i.item, i.after + next);
    ParseLabelComplete(i.tag, isObject, i.before + item);
    PrintStartsValue(i.item, i.after + next);
    TakeSpaceIs(i.before, item);
    TakeSpaceIs(i.after, next);
  }

  /** `tail` is what follows the items: the closing bracket and the rest of the text. */
  lemma {:induction false} ParseItemsComplete(i: Items, isObject: bool, tail: string)
    requires ItemsOk(i, isObject) && Starts(tail, Closing(isObject))
    ensures ParseItems(PrintItemsOnto(i, tail), isObject) == Some(Parsed(i, tail))
    decreases i, 1
  {
    var next := if i.One? then tail else [','] + PrintItemsOnto(i.rest, tail);
    GapDelimits(i.after, next);
    ParseValueComplete(i.item, i.after + next);
    ParseItemComplete(i, isObject, next);
    if i.More? {
      ParseItemsComplete(i.rest, isObject, tail);
      assert next[1..] == PrintItemsOnto(i.rest, tail);
    }
  }

  /** Parsing a printed document returns that document, whitespace and all. */
  lemma {:induction false} ParseIsComplete(d: Document)
    requires DocumentOk(d)
    ensures Parse(PrintDocument(d)) == Some(d)
  {
    PrintStartsValue(d.tree, d.after);
    TakeSpaceIs(d.before, PrintOnto(d.tree, d.after));
    assert d.after + "" == d.after;
    GapDelimits(d.after, "");
    ParseValueComplete(d.tree, d.after);
    TakeSpaceIs(d.after, "");
  }
}
