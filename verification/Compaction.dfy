/** The v2 decoder's fast path against always compacting (internal/api/types.go, decodeJSONValue and
    jsonRawIsCompact; internal/schema/encoder.go, encodeJSON). json.Compact is modelled by what it is
    documented to do: reject what is not JSON, else drop the whitespace outside strings. */
module Compaction {
  import opened Base
  import opened Json
  import opened JsonProofs

  /** Where a left-to-right scan of a text stands. */
  datatype Mode = Outside | Inside | Escaped

  function NextMode(m: Mode, c: char): Mode {
    match m
    case Outside => if c == '\"' then Inside else Outside
    case Inside => if c == '\\' then Escaped else if c == '\"' then Outside else Inside
    case Escaped => Inside
  }

  /** Drop the whitespace outside strings. */
  function Strip(s: string, m: Mode): string {
    if s == "" then ""
    else if m.Outside? && IsSpace(s[0]) then Strip(s[1..], m)
    else [s[0]] + Strip(s[1..], NextMode(m, s[0]))
  }

  /** There is no whitespace outside strings. */
  predicate Gapless(s: string, m: Mode) {
    s == "" || (!(m.Outside? && IsSpace(s[0])) && Gapless(s[1..], NextMode(m, s[0])))
  }

  lemma {:induction false} StripNeverGrows(s: string, m: Mode)
    ensures |Strip(s, m)| <= |s|
    ensures |Strip(s, m)| == |s| ==> Gapless(s, m)
    ensures Gapless(s, m) ==> Strip(s, m) == s
  {
    if s != "" {
      StripNeverGrows(s[1..], if m.Outside? && IsSpace(s[0]) then m else NextMode(m, s[0]));
      assert s == [s[0]] + s[1..];
    }
  }

  lemma {:induction false} StripIsIdempotent(s: string, m: Mode)
    ensures Strip(Strip(s, m), m) == Strip(s, m)
  {
    if s != "" {
      if m.Outside? && IsSpace(s[0]) {
        StripIsIdempotent(s[1..], m);
      } else {
        StripIsIdempotent(s[1..], NextMode(m, s[0]));
        var rest := Strip(s[1..], NextMode(m, s[0]));
        assert ([s[0]] + rest)[1..] == rest;
      }
    }
  }

  /** jsonRawIsCompact: true exactly when compacting would change nothing, for every input. */
  method JsonRawIsCompact(raw: string) returns (compact: bool)
    ensures compact <==> Strip(raw, Outside) == raw
    ensures compact <==> Gapless(raw, Outside)
  {
    StripNeverGrows(raw, Outside);
    var inString, escaped := false, false;
    for i := 0 to |raw|
      invariant escaped ==> inString
      invariant Gapless(raw, Outside) <==>
        Gapless(raw[i..], if escaped then Escaped else if inString then Inside else Outside)
    {
      assert raw[i..][1..] == raw[i + 1..];
      var b := raw[i];
      if inString {
        if escaped {
          escaped := false;
        } else if b == '\\' {
          escaped := true;
        } else if b == '\"' {
          inString := false;
        }
      } else if b == '\"' {
        inString := true;
      } else if b == ' ' || b == '\n' || b == '\r' || b == '\t' {
        return false;
      }
    }
    return true;
  }

  // ---------------------------------------------------------------------------------------
  // Stripping a printed tree

  lemma {:induction false} StripGap(gap: string, tail: string)
    requires AllSpace(gap)
    ensures Strip(gap + tail, Outside) == Strip(tail, Outside)
  {
    if gap == "" {
      assert gap + tail == tail;
    } else {
      assert (gap + tail)[1..] == gap[1..] + tail;
      StripGap(gap[1..], tail);
    }
  }

  lemma {:induction false} StripAtom(text: string, tail: string)
    requires forall i :: 0 <= i < |text| ==> IsAtomChar(text[i])
    ensures Strip(text + tail, Outside) == text + Strip(tail, Outside)
  {
    if text == "" {
      assert text + tail == tail;
    } else {
      assert (text + tail)[1..] == text[1..] + tail;
      StripAtom(text[1..], tail);
      assert text == [text[0]] + text[1..];
    }
  }

  /** Inside a string nothing is dropped, and the body ends where the scan thinks it ends. */
  lemma {:induction false} StripBody(body: string, tail: string)
    requires IsBody(body)
    ensures Strip(body + tail, Inside) == body + Strip(tail, Inside)
    decreases |body|
  {
    if body == "" {
      assert body + tail == tail;
    } else {
      var k := CharLength(body).value;
      StripBody(body[k..], tail);
      StripChar(body, k, tail);
      assert body[..k] + body[k..] == body;
    }
  }

  lemma {:induction false} StripChar(body: string, k: nat, tail: string)
    requires body != "" && CharLength(body) == Some(k)
    ensures Strip(body + tail, Inside) == body[..k] + Strip(body[k..] + tail, Inside)
  {
    var s := body + tail;
    assert s[1..] == body[1..] + tail;
    if k == 1 {
      assert body[..1] == [s[0]];
    } else {
      var t := body[1..] + tail;
      assert t[1..] == body[2..] + tail;
      assert Strip(s, Inside) == [s[0]] + ([t[0]] + Strip(body[2..] + tail, Inside));
      if k == 2 {
        assert body[..2] == [s[0]] + [t[0]];
      } else {
        StripHex(body[2..6], body[6..] + tail);
        assert body[2..] + tail == body[2..6] + (body[6..] + tail);
        assert body[..6] == [s[0]] + ([t[0]] + body[2..6]);
      }
    }
  }

  lemma {:induction false} StripHex(digits: string, tail: string)
    requires forall i :: 0 <= i < |digits| ==> IsHex(digits[i])
    ensures Strip(digits + tail, Inside) == digits + Strip(tail, Inside)
  {
    if digits == "" {
      assert digits + tail == tail;
    } else {
      assert (digits + tail)[1..] == digits[1..] + tail;
      StripHex(digits[1..], tail);
      assert digits == [digits[0]] + digits[1..];
    }
  }

  lemma {:induction false} StripText(body: string, tail: string)
    requires IsBody(body)
    ensures Strip(PrintTextOnto(body, tail), Outside) == PrintTextOnto(body, Strip(tail, Outside))
  {
    var rest := ['\"'] + tail;
    assert PrintTextOnto(body, tail)[1..] == body + rest;
    StripBody(body, rest);
    assert rest[1..] == tail;
  }

  lemma {:induction false} StripLabel(l: Label, isObject: bool, tail: string)
    requires LabelOk(l, isObject)
    ensures Strip(PrintLabelOnto(l, tail), Outside) == PrintLabelOnto(SqueezeLabel(l), Strip(tail, Outside))
  {
    if l.Label? {
      var colon := [':'] + tail;
      StripGap(l.before, PrintTextOnto(l.key, l.after + colon));
      StripText(l.key, l.after + colon);
      StripGap(l.after, colon);
      assert colon[1..] == tail;
      var squeezed := PrintTextOnto(l.key, "" + ([':'] + Strip(tail, Outside)));
      assert "" + squeezed == squeezed;
      assert "" + ([':'] + Strip(tail, Outside)) == [':'] + Strip(tail, Outside);
    }
  }

  lemma {:induction false} StripBracket(c: char, tail: string)
    requires !IsSpace(c) && c != '\"'
    ensures Strip([c] + tail, Outside) == [c] + Strip(tail, Outside)
  {
    assert ([c] + tail)[1..] == tail;
  }

  /** Stripping the text of a tree gives the text of its value. */
  lemma {:induction false} StripPrint(t: Tree, tail: string)
    requires WellFormed(t)
    ensures Strip(PrintOnto(t, tail), Outside) == PrintOnto(Squeeze(t), Strip(tail, Outside))
    decreases t, 0
  {
    match t
    case Atom(text) => StripAtom(text, tail);
    case Text(body) => StripText(body, tail);
    case Empty(isObject, gap) =>
      var rest := [Closing(isObject)] + tail;
      StripBracket(Opening(isObject), gap + rest);
      StripGap(gap, rest);
      StripBracket(Closing(isObject), tail);
      assert "" + ([Closing(isObject)] + Strip(tail, Outside)) == [Closing(isObject)] + Strip(tail, Outside);
    case Group(isObject, items) =>
      var rest := [Closing(isObject)] + tail;
      StripBracket(Opening(isObject), PrintItemsOnto(items, rest));
      StripItems(items, isObject, rest);
      StripBracket(Closing(isObject), tail);
  }

  lemma {:induction false} StripItems(i: Items, isObject: bool, tail: string)
    requires ItemsOk(i, isObject)
    ensures Strip(PrintItemsOnto(i, tail), Outside) == PrintItemsOnto(SqueezeItems(i), Strip(tail, Outside))
    decreases i, 1
  {
    var next := if i.One? then tail else [','] + PrintItemsOnto(i.rest, tail);
    var next' := if i.One? then Strip(tail, Outside) else [','] + PrintItemsOnto(SqueezeItems(i.rest), Strip(tail, Outside));
    if i.More? {
      StripBracket(',', PrintItemsOnto(i.rest, tail));
      StripItems(i.rest, isObject, tail);
    }
    assert Strip(next, Outside) == next';
    var item := PrintOnto(i.item, i.after + next);
    StripLabel(i.tag, isObject, i.before + item);
    StripGap(i.before, item);
    StripPrint(i.item, i.after + next);
    StripGap(i.after, next);
    var item' := PrintOnto(Squeeze(i.item), "" + next');
    assert "" + next' == next' && "" + item' == item';
  }

  // ---------------------------------------------------------------------------------------
  // The two decoders

  /** json.Compact */
  function JsonCompact(s: string): Result<string, string> {
    if Parse(s).Some? then Ok(Strip(s, Outside)) else Err("invalid JSON")
  }

  /** unicode.IsSpace, which bytes.TrimSpace uses. */
  predicate IsUnicodeSpace(c: char) {
    || '\t' <= c <= '\r' || c == ' ' || c == '\U{85}' || c == '\U{A0}' || c == '\U{1680}'
    || '\U{2000}' <= c <= '\U{200A}' || c == '\U{2028}' || c == '\U{2029}' || c == '\U{202F}'
    || c == '\U{205F}' || c == '\U{3000}'
  }

  function TrimLeft(s: string): string {
    if s != "" && IsUnicodeSpace(s[0]) then TrimLeft(s[1..]) else s
  }

  function TrimRight(s: string): string {
    if s != "" && IsUnicodeSpace(s[|s| - 1]) then TrimRight(s[..|s| - 1]) else s
  }

  function TrimSpace(s: string): string {
    TrimRight(TrimLeft(s))
  }

  /** What the v2 path makes of a value's text: as it is when it has no gaps, compacted otherwise. */
  function DecodedValue(raw: string): Result<string, string> {
    if Gapless(TrimSpace(raw), Outside) then Ok(TrimSpace(raw)) else JsonCompact(TrimSpace(raw))
  }

  lemma {:induction false} TrimLeftGap(gap: string, rest: string)
    requires AllSpace(gap) && rest != "" && !IsUnicodeSpace(rest[0])
    ensures TrimLeft(gap + rest) == rest
  {
    if gap == "" {
      assert gap + rest == rest;
    } else {
      assert (gap + rest)[1..] == gap[1..] + rest;
      TrimLeftGap(gap[1..], rest);
    }
  }

  lemma {:induction false} TrimRightGap(text: string, gap: string)
    requires AllSpace(gap) && text != "" && !IsUnicodeSpace(text[|text| - 1])
    ensures TrimRight(text + gap) == text
  {
    if gap == "" {
      assert text + gap == text;
    } else {
      assert (text + gap)[..|text + gap| - 1] == text + gap[..|gap| - 1];
      TrimRightGap(text, gap[..|gap| - 1]);
    }
  }

  lemma {:induction false} TextAppend(body: string, a: string, b: string)
    ensures PrintTextOnto(body, a + b) == PrintTextOnto(body, a) + b
  {
    var quote := ['\"'];
    Assoc(quote, a, b);
    Assoc(body, quote + a, b);
    Assoc(quote, body + (quote + a), b);
  }

  lemma {:induction false} LabelAppend(l: Label, a: string, b: string)
    ensures PrintLabelOnto(l, a + b) == PrintLabelOnto(l, a) + b
  {
    if l.Label? {
      Assoc([':'], a, b);
      Assoc(l.after, [':'] + a, b);
      TextAppend(l.key, l.after + ([':'] + a), b);
      Assoc(l.before, PrintTextOnto(l.key, l.after + ([':'] + a)), b);
    }
  }

  lemma {:induction false} PrintAppend(t: Tree, a: string, b: string)
    ensures PrintOnto(t, a + b) == PrintOnto(t, a) + b
    decreases t, 0
  {
    match t
    case Atom(text) => Assoc(text, a, b);
    case Text(body) => TextAppend(body, a, b);
    case Empty(isObject, gap) =>
      var close := [Closing(isObject)];
      Assoc(close, a, b);
      Assoc(gap, close + a, b);
      Assoc([Opening(isObject)], gap + (close + a), b);
    case Group(isObject, items) =>
      var close := [Closing(isObject)];
      Assoc(close, a, b);
      PrintItemsAppend(items, close + a, b);
      Assoc([Opening(isObject)], PrintItemsOnto(items, close + a), b);
  }

  lemma {:induction false} PrintItemsAppend(i: Items, a: string, b: string)
    ensures PrintItemsOnto(i, a + b) == PrintItemsOnto(i, a) + b
    decreases i, 1
  {
    var next := if i.One? then a else [','] + PrintItemsOnto(i.rest, a);
    if i.More? {
      PrintItemsAppend(i.rest, a, b);
      Assoc([','], PrintItemsOnto(i.rest, a), b);
    }
    var item := PrintOnto(i.item, i.after + next);
    Assoc(i.after, next, b);
    PrintAppend(i.item, i.after + next, b);
    Assoc(i.before, item, b);
    LabelAppend(i.tag, i.before + item, b);
  }

  lemma {:induction false} PrintOntoIsAppend(t: Tree, tail: string)
    ensures PrintOnto(t, tail) == Print(t) + tail
  {
    PrintAppend(t, "", tail);
    assert "" + tail == tail;
  }

  /** The last character of a value's text is a quote, a bracket or an atom character. */
  lemma {:induction false} PrintEnds(t: Tree) returns (front: string, last: char)
    requires WellFormed(t)
    ensures Print(t) == front + [last]
    ensures last == '\"' || last == ']' || last == '}' || IsAtomChar(last)
  {
    match t
    case Atom(text) =>
      assert text != "" && text + "" == text;
      front, last := text[..|text| - 1], text[|text| - 1];
    case Text(body) =>
      front, last := ['\"'] + body, '\"';
      assert ['\"'] + "" == ['\"'];
      Assoc(['\"'], body, ['\"']);
    case Empty(isObject, gap) =>
      front, last := [Opening(isObject)] + gap, Closing(isObject);
      assert [last] + "" == [last];
      Assoc([Opening(isObject)], gap, [last]);
    case Group(isObject, items) =>
      last := Closing(isObject);
      front := [Opening(isObject)] + PrintItemsOnto(items, "");
      assert [last] + "" == [last] && "" + [last] == [last];
      PrintItemsAppend(items, "", [last]);
      Assoc([Opening(isObject)], PrintItemsOnto(items, ""), [last]);
  }

  /** A value's text neither starts nor ends with whitespace. */
  lemma {:induction false} PrintIsTight(t: Tree)
    requires WellFormed(t)
    ensures Print(t) != "" && !IsUnicodeSpace(Print(t)[0]) && !IsUnicodeSpace(Print(t)[|Print(t)| - 1])
  {
    PrintStartsValue(t, "");
    var front, last := PrintEnds(t);
  }

  /** Trimming a document leaves its value's text. */
  lemma {:induction false} TrimDocument(d: Document)
    requires DocumentOk(d)
    ensures TrimSpace(PrintDocument(d)) == Print(d.tree)
  {
    PrintOntoIsAppend(d.tree, d.after);
    PrintIsTight(d.tree);
    TrimLeftGap(d.before, Print(d.tree) + d.after);
    TrimRightGap(Print(d.tree), d.after);
  }

  /** A tree prints, and its print compacts and parses, as itself without whitespace. */
  lemma {:induction false} TreeCompacts(t: Tree)
    requires WellFormed(t)
    ensures Strip(Print(t), Outside) == Print(Squeeze(t))
    ensures Parse(Print(t)) == Some(Document("", t, ""))
  {
    StripPrint(t, "");
    assert PrintDocument(Document("", t, "")) == Print(t);
    ParseIsComplete(Document("", t, ""));
  }

  /** The compact print of a tree has no gaps and parses to the tree without whitespace. */
  lemma {:induction false} SqueezedIsCompact(t: Tree)
    requires WellFormed(t)
    ensures Gapless(Print(Squeeze(t)), Outside)
    ensures Parse(Print(Squeeze(t))) == Some(Document("", Squeeze(t), ""))
  {
    SqueezeKeepsWellFormed(t);
    TreeCompacts(Squeeze(t));
    StripNeverGrows(Print(Squeeze(t)), Outside);
  }

  /** Whitespace around a document is stripped with the rest. */
  lemma {:induction false} DocumentCompacts(d: Document)
    requires DocumentOk(d)
    ensures Strip(PrintDocument(d), Outside) == Print(Squeeze(d.tree))
  {
    StripGap(d.before, PrintOnto(d.tree, d.after));
    StripPrint(d.tree, d.after);
    StripGap(d.after, "");
    assert d.after + "" == d.after;
  }

  /** For every rendering of a value, with whatever whitespace, the fast v2 decoder and the always
      compacting v3 encoder both yield the one compact rendering of that value, which parses back
      to the value. */
  lemma {:induction false} DecodersAgree(raw: string)
    requires Parse(raw).Some?
    ensures
      var compact := Print(Squeeze(Parse(raw).value.tree));
      && DecodedValue(raw) == Ok(compact)
      && JsonCompact(raw) == Ok(compact)
      && Gapless(compact, Outside)
      && Parse(compact) == Some(Document("", Squeeze(Parse(raw).value.tree), ""))
  {
    var d := Parse(raw).value;
    ParseIsSound(raw);
    TrimDocument(d);
    TreeCompacts(d.tree);
    SqueezedIsCompact(d.tree);
    DocumentCompacts(d);
    StripNeverGrows(Print(d.tree), Outside);
  }

  /** decodeJSONValue: on every JSON text the fast path yields the one compact rendering. */
  method DecodeJSONValue(raw: string) returns (r: Result<string, string>)
    ensures r == DecodedValue(raw)
    ensures Parse(raw).Some? ==> r == Ok(Print(Squeeze(Parse(raw).value.tree)))
  {
    if Parse(raw).Some? {
      DecodersAgree(raw);
    }
    var trimmed := TrimSpace(raw);
    var compact := JsonRawIsCompact(trimmed);
    if compact {
      return Ok(trimmed);
    }
    return JsonCompact(trimmed);
  }

  /** Two texts decode to the same bytes exactly when they are the same up to whitespace. */
  lemma {:induction false} SameBytesSameTokens(raw: string, other: string)
    requires Parse(raw).Some? && Parse(other).Some?
    ensures DecodedValue(raw) == DecodedValue(other) <==>
            Squeeze(Parse(raw).value.tree) == Squeeze(Parse(other).value.tree)
  {
    DecodersAgree(raw);
    DecodersAgree(other);
  }

  /** isJSONNull: a text decodes to no bytes at all exactly when its value is null. */
  predicate IsJSONNull(raw: string) {
    TrimSpace(raw) == "null"
  }

  /** A value's text determines the value. */
  lemma {:induction false} PrintIsInjective(t: Tree, u: Tree)
    requires WellFormed(t) && WellFormed(u) && Print(t) == Print(u)
    ensures t == u
  {
    assert PrintDocument(Document("", t, "")) == Print(t);
    assert PrintDocument(Document("", u, "")) == Print(u);
    ParseIsComplete(Document("", t, ""));
    ParseIsComplete(Document("", u, ""));
  }

  lemma {:induction false} NullIsRecognised(raw: string)
    requires Parse(raw).Some?
    ensures IsJSONNull(raw) <==> Parse(raw).value.tree == Atom("null")
  {
    var t := Parse(raw).value.tree;
    ParseIsSound(raw);
    TrimDocument(Parse(raw).value);
    NullIsAtom();
    assert Print(Atom("null")) == "null" + "" == "null";
    if Print(t) == Print(Atom("null")) {
      PrintIsInjective(t, Atom("null"));
    }
  }
}
