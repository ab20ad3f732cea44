/** The hand-written v2 response (internal/api/types.go, appendProduceResponse) and what a client reads
    out of it. Error texts may hold bytes that are not UTF-8. */
module ProduceResponse {
  import opened Base
  import opened Records
  import opened Json
  import opened JsonProofs
  import opened Compaction
  import opened Decimal

  // ---------------------------------------------------------------------------------------
  // strconv.AppendQuote

  const DELETE: char := '\U{7F}'

  /** unicode printability; `table` decides outside ASCII. */
  predicate IsPrint(table: char -> bool, c: char) {
    if c < '\U{80}' then ' ' <= c < DELETE else table(c)
  }

  function HexDigit(d: int): char
    requires 0 <= d < 16
  {
    if d < 10 then ('0' as int + d) as char else ('a' as int + d - 10) as char
  }

  /** `width` lower-case hex digits of n. */
  function Hex(n: nat, width: nat): (s: string)
    ensures |s| == width
    ensures forall i :: 0 <= i < |s| ==> IsHex(s[i])
  {
    if width == 0 then "" else Hex(n / 16, width - 1) + [HexDigit(n % 16)]
  }

  /** One rune as AppendQuote writes it between double quotes. */
  function QuoteChar(table: char -> bool, c: char): string {
    if c == '\"' || c == '\\' then ['\\', c]
    else if IsPrint(table, c) then [c]
    else if c == '\U{7}' then "\\a"
    else if c == '\U{8}' then "\\b"
    else if c == '\U{C}' then "\\f"
    else if c == '\n' then "\\n"
    else if c == '\r' then "\\r"
    else if c == '\t' then "\\t"
    else if c == '\U{B}' then "\\v"
    else if c < ' ' || c == DELETE then ['\\', 'x'] + Hex(c as int, 2)
    else if c < '\U{10000}' then ['\\', 'u'] + Hex(c as int, 4)
    else ['\\', 'U'] + Hex(c as int, 8)
  }

  /** A byte that is not UTF-8 is written as \xNN. */
  function QuoteRune(table: char -> bool, r: Rune): string {
    match r
    case Char(c) => QuoteChar(table, c)
    case BadByte(b) => ['\\', 'x'] + Hex(b, 2)
  }

  function QuoteBody(table: char -> bool, text: Message): string {
    if text == [] then "" else QuoteRune(table, text[0]) + QuoteBody(table, text[1..])
  }

  /** AppendQuote writes this rune in a way section 7 of RFC 8259 knows: not as \a, \v, \xNN or
      \UNNNNNNNN. */
  predicate IsSafe(table: char -> bool, r: Rune) {
    r.Char? && IsSafeChar(table, r.c)
  }

  predicate IsSafeChar(table: char -> bool, c: char) {
    || c in "\U{8}\U{C}\n\r\t"
    || (' ' <= c && c != DELETE && (c < '\U{10000}' || table(c)))
  }

  predicate AllSafe(table: char -> bool, text: Message) {
    forall i :: 0 <= i < |text| ==> IsSafe(table, text[i])
  }

  lemma {:induction false} QuoteRuneLength(table: char -> bool, r: Rune, rest: string)
    ensures IsSafe(table, r) ==> CharLength(QuoteRune(table, r) + rest) == Some(|QuoteRune(table, r)|)
    ensures !IsSafe(table, r) ==> CharLength(QuoteRune(table, r) + rest) == None
    ensures (QuoteRune(table, r) + rest)[|QuoteRune(table, r)|..] == rest
  {
    var q := QuoteRune(table, r);
    assert forall i :: 0 <= i < |q| ==> (q + rest)[i] == q[i];
  }

  /** Scanning this body fails whatever follows it. */
  ghost predicate Stuck(body: string) {
    forall tail :: TakeBody(body + tail).None?
  }

  /** The quoted text is the body of a JSON string exactly when every rune is safe; if not,
      no reader gets past it. */
  lemma {:induction false} QuoteIsBodyIffSafe(table: char -> bool, text: Message)
    ensures IsBody(QuoteBody(table, text)) <==> AllSafe(table, text)
    ensures !AllSafe(table, text) ==> Stuck(QuoteBody(table, text))
  {
    if text != [] {
      var q, rest := QuoteRune(table, text[0]), QuoteBody(table, text[1..]);
      QuoteRuneLength(table, text[0], rest);
      QuoteIsBodyIffSafe(table, text[1..]);
      assert text[0] in text;
      assert AllSafe(table, text) <==> IsSafe(table, text[0]) && AllSafe(table, text[1..]) by {
        assert forall i :: 0 < i < |text| ==> text[i] == text[1..][i - 1];
        assert forall i :: 0 <= i < |text| - 1 ==> text[1..][i] == text[i + 1];
      }
      if !AllSafe(table, text) {
        forall tail
          ensures TakeBody((q + rest) + tail).None?
        {
          Assoc(q, rest, tail);
          QuoteRuneLength(table, text[0], rest + tail);
        }
      }
    }
  }

  // ---------------------------------------------------------------------------------------
  // Reading a string back

  function HexNumber(s: string): (n: int)
    requires forall i :: 0 <= i < |s| ==> IsHex(s[i])
    ensures n >= 0
  {
    if s == "" then 0 else 16 * HexNumber(s[..|s| - 1]) + HexValue(s[|s| - 1])
  }

  /** The character that the first (possibly escaped) character of a body stands for; none for an
      escape in the surrogate range. */
  function CharMeaning(s: string): Option<char>
    requires s != "" && CharLength(s).Some?
  {
    if s[0] != '\\' then Some(s[0])
    else if s[1] == 'u' then
      var n := HexNumber(s[2..6]);
      if 0 <= n < 0xD800 || 0xE000 <= n < 0x10000 then Some(n as char) else None
    else
      Some(match s[1]
           case 'b' => '\U{8}'
           case 'f' => '\U{C}'
           case 'n' => '\n'
           case 'r' => '\r'
           case 't' => '\t'
           case c => c)
  }

  function Unquote(body: string): Option<string>
    decreases |body|
  {
    if body == "" then Some("")
    else if CharLength(body).None? then None
    else
      var rest := Unquote(body[CharLength(body).value..]);
      if CharMeaning(body).None? || rest.None? then None else Some([CharMeaning(body).value] + rest.value)
  }

  function Pow16(k: nat): nat {
    if k == 0 then 1 else 16 * Pow16(k - 1)
  }

  lemma {:induction false} HexRoundTrip(n: nat, width: nat)
    requires n < Pow16(width)
    ensures HexNumber(Hex(n, width)) == n
  {
    if width > 0 {
      HexRoundTrip(n / 16, width - 1);
      var s := Hex(n, width);
      assert s[..|s| - 1] == Hex(n / 16, width - 1);
      assert HexValue(HexDigit(n % 16)) == n % 16;
    }
  }

  lemma {:induction false} QuoteCharMeaning(table: char -> bool, c: char, rest: string)
    requires IsSafeChar(table, c)
    ensures CharLength(QuoteChar(table, c) + rest).Some?
    ensures CharMeaning(QuoteChar(table, c) + rest) == Some(c)
  {
    var q := QuoteChar(table, c);
    QuoteRuneLength(table, Char(c), rest);
    assert forall i :: 0 <= i < |q| ==> (q + rest)[i] == q[i];
    if |q| == 6 {
      assert (q + rest)[2..6] == Hex(c as int, 4);
      assert Pow16(4) == 0x10000;
      HexRoundTrip(c as int, 4);
    }
  }

  /** Safe text has no invalid byte, so showing it loses nothing. */
  lemma {:induction false} SafeIsShown(table: char -> bool, text: Message)
    requires AllSafe(table, text)
    ensures AsMessage(Shown(text)) == text
  {
  }

  /** Safe text survives quoting. */
  lemma {:induction false} QuoteRoundTrip(table: char -> bool, text: Message)
    requires AllSafe(table, text)
    ensures Unquote(QuoteBody(table, text)) == Some(Shown(text)) && AsMessage(Shown(text)) == text
  {
    SafeIsShown(table, text);
    if text != [] {
      var rest := QuoteBody(table, text[1..]);
      QuoteRuneLength(table, text[0], rest);
      QuoteCharMeaning(table, text[0].c, rest);
      QuoteRoundTrip(table, text[1..]);
      assert Shown(text) == [text[0].c] + Shown(text[1..]);
    }
  }

  // ---------------------------------------------------------------------------------------
  // The response as a tree

  /** Schema ids reported once per response. */
  datatype Meta = Meta(keySchemaId: Option<int>, valueSchemaId: Option<int>)

  const NULL: Tree := Atom("null")

  function IntTree(n: int): Tree {
    Atom(FormatInt(n))
  }

  function NullableIntTree(n: Option<int>): Tree {
    if n.None? then NULL else IntTree(n.value)
  }

  function Key(name: string): Label {
    Label("", name, "")
  }

  /** An object of four members, whatever their names. */
  function FourMembers(n1: string, n2: string, n3: string, n4: string, t1: Tree, t2: Tree, t3: Tree, t4: Tree): Tree {
    Group(true, More(Key(n1), "", t1, "", More(Key(n2), "", t2, "", More(Key(n3), "", t3, "", One(Key(n4), "", t4, "")))))
  }

  function ThreeMembers(n1: string, n2: string, n3: string, t1: Tree, t2: Tree, t3: Tree): Tree {
    Group(true, More(Key(n1), "", t1, "", More(Key(n2), "", t2, "", One(Key(n3), "", t3, ""))))
  }

  /** The four members of every entry, in the order they are written. */
  function EntryTree(partition: Tree, offset: Tree, code: Tree, error: Tree): Tree {
    FourMembers("partition", "offset", "error_code", "error", partition, offset, code, error)
  }

  function ResultTree(table: char -> bool, r: ProduceResult): Tree {
    if ResultFailed(r) then EntryTree(NULL, NULL, IntTree(ResultErrorCode(r)), Text(QuoteBody(table, ResultErrorMessage(r))))
    else EntryTree(IntTree(r.partition), IntTree(r.offset), NULL, NULL)
  }

  /** An array of these values, without whitespace. */
  function ArrayItems(trees: seq<Tree>): Items
    requires trees != []
  {
    if |trees| == 1 then One(NoLabel, "", trees[0], "")
    else More(NoLabel, "", trees[0], "", ArrayItems(trees[1..]))
  }

  function ArrayTree(trees: seq<Tree>): Tree {
    if trees == [] then Empty(false, "") else Group(false, ArrayItems(trees))
  }

  function ResultTrees(table: char -> bool, results: seq<ProduceResult>): seq<Tree> {
    seq(|results|, i requires 0 <= i < |results| => ResultTree(table, results[i]))
  }

  function OffsetsTree(table: char -> bool, results: seq<ProduceResult>): Tree {
    ArrayTree(ResultTrees(table, results))
  }

  function ResponseTree(table: char -> bool, results: seq<ProduceResult>, meta: Meta): Tree {
    ThreeMembers("offsets", "key_schema_id", "value_schema_id",
                 OffsetsTree(table, results), NullableIntTree(meta.keySchemaId), NullableIntTree(meta.valueSchemaId))
  }

  // ---------------------------------------------------------------------------------------
  // Printing

  lemma {:induction false} KeyText(name: string, tail: string)
    ensures PrintLabelOnto(Key(name), tail) == ("\"" + name + "\":") + tail
  {
    assert "\":" == ['\"'] + [':'];
  }

  /** One member of an object, as a key text, a value text and the rest. */
  lemma {:induction false} MemberText(key: string, name: string, t: Tree, next: string)
    requires key == "\"" + name + "\":"
    ensures PrintLabelOnto(Key(name), "" + PrintOnto(t, "" + next)) == key + (Print(t) + next)
  {
    assert "" + next == next;
    PrintOntoIsAppend(t, next);
    assert "" + PrintOnto(t, next) == PrintOnto(t, next);
    KeyText(name, Print(t) + next);
  }

  /** The same after a comma. */
  lemma {:induction false} NextMemberText(key: string, name: string, t: Tree, next: string)
    requires key == ",\"" + name + "\":"
    ensures [','] + PrintLabelOnto(Key(name), "" + PrintOnto(t, "" + next)) == key + (Print(t) + next)
  {
    var plain := "\"" + name + "\":";
    MemberText(plain, name, t, next);
    Assoc([','], plain, Print(t) + next);
    assert key == [','] + plain;
  }

  /** Appending piece by piece builds the right-nested text. */
  lemma {:induction false} Rope(dst: string, a: string, b: string, c: string, d: string, e: string, f: string)
    ensures dst + a + b + c + d + e + f == dst + (a + (b + (c + (d + (e + f)))))
  {
    Assoc(dst + a + b + c + d, e, f);
    Assoc(dst + a + b + c, d, e + f);
    Assoc(dst + a + b, c, d + (e + f));
    Assoc(dst + a, b, c + (d + (e + f)));
    Assoc(dst, a, b + (c + (d + (e + f))));
  }

  lemma {:induction false} FourMembersText(n1: string, n2: string, n3: string, n4: string, k1: string, k2: string, k3: string, k4: string,
                        t1: Tree, t2: Tree, t3: Tree, t4: Tree)
    requires k1 == "\"" + n1 + "\":" && k2 == ",\"" + n2 + "\":" && k3 == ",\"" + n3 + "\":" && k4 == ",\"" + n4 + "\":"
    ensures Print(FourMembers(n1, n2, n3, n4, t1, t2, t3, t4)) ==
            ['{'] + (k1 + (Print(t1) + (k2 + (Print(t2) + (k3 + (Print(t3) + (k4 + (Print(t4) + ['}']))))))))
  {
    var m4 := One(Key(n4), "", t4, "");
    var m3 := More(Key(n3), "", t3, "", m4);
    var m2 := More(Key(n2), "", t2, "", m3);
    var m1 := More(Key(n1), "", t1, "", m2);
    assert ['}'] + "" == ['}'];
    NextMemberText(k4, n4, t4, ['}']);
    assert [','] + PrintItemsOnto(m4, ['}']) == k4 + (Print(t4) + ['}']);
    NextMemberText(k3, n3, t3, [','] + PrintItemsOnto(m4, ['}']));
    assert [','] + PrintItemsOnto(m3, ['}']) == k3 + (Print(t3) + ([','] + PrintItemsOnto(m4, ['}'])));
    NextMemberText(k2, n2, t2, [','] + PrintItemsOnto(m3, ['}']));
    assert [','] + PrintItemsOnto(m2, ['}']) == k2 + (Print(t2) + ([','] + PrintItemsOnto(m3, ['}'])));
    MemberText(k1, n1, t1, [','] + PrintItemsOnto(m2, ['}']));
    assert PrintItemsOnto(m1, ['}']) == k1 + (Print(t1) + ([','] + PrintItemsOnto(m2, ['}'])));
    assert Print(Group(true, m1)) == ['{'] + PrintItemsOnto(m1, ['}']);
  }

  const PARTITION_KEY: string := "\"partition\":"
  const OFFSET_KEY: string := ",\"offset\":"
  const CODE_KEY: string := ",\"error_code\":"
  const ERROR_KEY: string := ",\"error\":"

  lemma {:induction false} EntryText(partition: Tree, offset: Tree, code: Tree, error: Tree)
    ensures Print(EntryTree(partition, offset, code, error)) ==
            ['{'] + (PARTITION_KEY + (Print(partition) + (OFFSET_KEY + (Print(offset)
            + (CODE_KEY + (Print(code) + (ERROR_KEY + (Print(error) + ['}']))))))))
  {
    EntryKeys();
    FourMembersText("partition", "offset", "error_code", "error", PARTITION_KEY, OFFSET_KEY, CODE_KEY, ERROR_KEY,
                    partition, offset, code, error);
  }

  lemma {:induction false} EntryKeys()
    ensures PARTITION_KEY == "\"" + "partition" + "\":"
    ensures OFFSET_KEY == ",\"" + "offset" + "\":"
    ensures CODE_KEY == ",\"" + "error_code" + "\":"
    ensures ERROR_KEY == ",\"" + "error" + "\":"
  {
  }

  lemma {:induction false} NullMembers()
    ensures PARTITION_KEY + "null" + OFFSET_KEY + "null" + CODE_KEY == "\"partition\":null,\"offset\":null,\"error_code\":"
    ensures CODE_KEY + "null" + ERROR_KEY + "null" == ",\"error_code\":null,\"error\":null"
  {
  }

  lemma {:induction false} Print2(text: string, body: string)
    ensures Print(Atom(text)) == text && Print(Text(body)) == "\"" + body + "\""
  {
    assert ['\"'] + "" == ['\"'];
  }

  /** A failed entry in the pieces the source appends. */
  lemma {:induction false} FailedText(head: string, code: int, body: string)
    requires head == PARTITION_KEY + "null" + OFFSET_KEY + "null" + CODE_KEY
    ensures Print(EntryTree(NULL, NULL, IntTree(code), Text(body))) ==
            ['{'] + (head + (FormatInt(code) + (ERROR_KEY + (("\"" + body + "\"") + ['}']))))
  {
    EntryText(NULL, NULL, IntTree(code), Text(body));
    Print2("null", body);
    Print2(FormatInt(code), body);
    FoldHead(PARTITION_KEY, "null", OFFSET_KEY, CODE_KEY, FormatInt(code) + (ERROR_KEY + (("\"" + body + "\"") + ['}'])));
  }

  lemma {:induction false} FoldHead(p: string, n: string, o: string, c: string, rest: string)
    ensures p + (n + (o + (n + (c + rest)))) == (p + n + o + n + c) + rest
  {
    Rope(p, n, o, n, c, rest, "");
    assert rest + "" == rest && (p + n + o + n + c + rest) + "" == p + n + o + n + c + rest;
    assert c + (rest + "") == c + rest;
  }

  /** A delivered entry in the pieces the source appends. */
  lemma {:induction false} SucceededText(tail: string, partition: int, offset: int)
    requires tail == CODE_KEY + "null" + ERROR_KEY + "null"
    ensures Print(EntryTree(IntTree(partition), IntTree(offset), NULL, NULL)) ==
            ['{'] + (PARTITION_KEY + (FormatInt(partition) + (OFFSET_KEY + (FormatInt(offset) + (tail + ['}'])))))
  {
    EntryText(IntTree(partition), IntTree(offset), NULL, NULL);
    Print2("null", "");
    Print2(FormatInt(partition), "");
    Print2(FormatInt(offset), "");
    FoldTail(CODE_KEY, "null", ERROR_KEY, ['}']);
  }

  lemma {:induction false} FoldTail(c: string, n: string, e: string, rest: string)
    ensures c + (n + (e + (n + rest))) == (c + n + e + n) + rest
  {
    Assoc(c + n + e, n, rest);
    Assoc(c + n, e, n + rest);
    Assoc(c, n, e + (n + rest));
  }

  /** One result, as the loop body writes it. */
  method AppendResult(dst: string, table: char -> bool, r: ProduceResult) returns (out: string)
    ensures out == dst + Print(ResultTree(table, r))
  {
    if ResultFailed(r) {
      var code := RECORD_ERROR_CODE;
      if r.errorCode.Some? {
        code := r.errorCode.value;
      }
      var errText := AsMessage("Kafka produce failed");
      if r.err.Some? {
        errText := r.err.value;
      }
      out := AppendFailed(dst, code, QuoteBody(table, errText));
    } else {
      out := AppendDelivered(dst, r.partition, r.offset);
    }
  }

  method AppendFailed(dst: string, code: int, body: string) returns (out: string)
    ensures out == dst + Print(EntryTree(NULL, NULL, IntTree(code), Text(body)))
  {
    var head := "\"partition\":null,\"offset\":null,\"error_code\":";
    out := dst + ['{'];
    out := out + head;
    out := out + FormatInt(code);
    out := out + ERROR_KEY;
    out := out + ("\"" + body + "\"");
    out := out + ['}'];
    NullMembers();
    FailedText(head, code, body);
    Rope(dst, ['{'], head, FormatInt(code), ERROR_KEY, "\"" + body + "\"", ['}']);
  }

  method AppendDelivered(dst: string, partition: int, offset: int) returns (out: string)
    ensures out == dst + Print(EntryTree(IntTree(partition), IntTree(offset), NULL, NULL))
  {
    var tail := ",\"error_code\":null,\"error\":null";
    out := dst + ['{'];
    out := out + PARTITION_KEY;
    out := out + FormatInt(partition);
    out := out + OFFSET_KEY;
    out := out + FormatInt(offset);
    out := out + tail;
    NullMembers();
    SucceededText(tail, partition, offset);
    Rope(dst, ['{'], PARTITION_KEY, FormatInt(partition), OFFSET_KEY, FormatInt(offset), tail + ['}']);
    Assoc(dst + ['{'] + PARTITION_KEY + FormatInt(partition) + OFFSET_KEY + FormatInt(offset), tail, ['}']);
    out := out + ['}'];
  }

  // ---------------------------------------------------------------------------------------
  // The loop

  /** What is still to be written after i values, up to and including `tail`. */
  function Remaining(trees: seq<Tree>, i: nat, tail: string): string
    requires i <= |trees|
  {
    if i == |trees| then tail
    else (if i > 0 then [','] else "") + PrintItemsOnto(ArrayItems(trees[i..]), tail)
  }

  lemma {:induction false} RemainingSteps(trees: seq<Tree>, i: nat, tail: string)
    requires i < |trees|
    ensures Remaining(trees, i, tail) ==
            (if i > 0 then [','] else "") + (Print(trees[i]) + Remaining(trees, i + 1, tail))
  {
    var ts := trees[i..];
    var next := Remaining(trees, i + 1, tail);
    assert ts[1..] == trees[i + 1..];
    assert PrintItemsOnto(ArrayItems(ts), tail) == "" + PrintOnto(ts[0], "" + next);
    assert "" + next == next && "" + PrintOnto(ts[0], next) == PrintOnto(ts[0], next);
    PrintOntoIsAppend(ts[0], next);
  }

  lemma {:induction false} ArrayText(trees: seq<Tree>)
    ensures Print(ArrayTree(trees)) == ['['] + Remaining(trees, 0, [']'])
  {
    assert [']'] + "" == [']'];
    if trees == [] {
      assert "" + [']'] == [']'];
    } else {
      assert trees[0..] == trees;
      var items := PrintItemsOnto(ArrayItems(trees), [']']);
      assert "" + items == items;
    }
  }

  method AppendNullableInt(dst: string, value: Option<int>) returns (out: string)
    ensures out == dst + Print(NullableIntTree(value))
  {
    if value.None? {
      Print2("null", "");
      return dst + "null";
    }
    Print2(FormatInt(value.value), "");
    return dst + FormatInt(value.value);
  }

  const OFFSETS_HEAD: string := "\"offsets\":"
  const KEY_ID_KEY: string := ",\"key_schema_id\":"
  const VALUE_ID_KEY: string := ",\"value_schema_id\":"

  lemma {:induction false} ResponseKeys()
    ensures OFFSETS_HEAD == "\"" + "offsets" + "\":"
    ensures KEY_ID_KEY == ",\"" + "key_schema_id" + "\":"
    ensures VALUE_ID_KEY == ",\"" + "value_schema_id" + "\":"
  {
  }

  lemma {:induction false} ThreeMembersText(n1: string, n2: string, n3: string, k1: string, k2: string, k3: string,
                         t1: Tree, t2: Tree, t3: Tree, tail: string)
    requires k1 == "\"" + n1 + "\":" && k2 == ",\"" + n2 + "\":" && k3 == ",\"" + n3 + "\":"
    ensures PrintOnto(ThreeMembers(n1, n2, n3, t1, t2, t3), tail) ==
            ['{'] + (k1 + (Print(t1) + (k2 + (Print(t2) + (k3 + (Print(t3) + (['}'] + tail)))))))
  {
    var close := ['}'] + tail;
    var m3 := One(Key(n3), "", t3, "");
    var m2 := More(Key(n2), "", t2, "", m3);
    var m1 := More(Key(n1), "", t1, "", m2);
    NextMemberText(k3, n3, t3, close);
    assert [','] + PrintItemsOnto(m3, close) == k3 + (Print(t3) + close);
    NextMemberText(k2, n2, t2, [','] + PrintItemsOnto(m3, close));
    assert [','] + PrintItemsOnto(m2, close) == k2 + (Print(t2) + ([','] + PrintItemsOnto(m3, close)));
    MemberText(k1, n1, t1, [','] + PrintItemsOnto(m2, close));
    assert PrintItemsOnto(m1, close) == k1 + (Print(t1) + ([','] + PrintItemsOnto(m2, close)));
  }

  /** The offsets array, written by the loop. */
  method AppendOffsets(dst: string, table: char -> bool, results: seq<ProduceResult>) returns (out: string)
    ensures out == dst + Print(OffsetsTree(table, results))
  {
    ghost var trees := ResultTrees(table, results);
    out := dst + ['['];
    ghost var goal := out + Remaining(trees, 0, [']']);
    for i := 0 to |results|
      invariant out + Remaining(trees, i, [']']) == goal
    {
      RemainingSteps(trees, i, [']']);
      ghost var rest := Remaining(trees, i + 1, [']']);
      ghost var comma := if i > 0 then [','] else "";
      Assoc(out, comma, Print(trees[i]) + rest);
      Assoc(out + comma, Print(trees[i]), rest);
      if i > 0 {
        out := out + [','];
      } else {
        assert out + "" == out;
      }
      out := AppendResult(out, table, results[i]);
    }
    out := out + [']'];
    ArrayText(trees);
    Assoc(dst, ['['], Remaining(trees, 0, [']']));
  }

  lemma {:induction false} ResponseText(table: char -> bool, results: seq<ProduceResult>, meta: Meta)
    ensures PrintOnto(ResponseTree(table, results, meta), "\n") ==
            ['{'] + (OFFSETS_HEAD + (Print(OffsetsTree(table, results)) + (KEY_ID_KEY + (Print(NullableIntTree(meta.keySchemaId))
            + (VALUE_ID_KEY + (Print(NullableIntTree(meta.valueSchemaId)) + (['}'] + "\n")))))))
  {
    ResponseKeys();
    ThreeMembersText("offsets", "key_schema_id", "value_schema_id", OFFSETS_HEAD, KEY_ID_KEY, VALUE_ID_KEY,
                     OffsetsTree(table, results), NullableIntTree(meta.keySchemaId), NullableIntTree(meta.valueSchemaId), "\n");
  }

  lemma {:induction false} LongRope(dst: string, a: string, b: string, c: string, d: string, e: string, f: string, g: string, h: string)
    ensures dst + a + b + c + d + e + f + g + h == dst + (a + (b + (c + (d + (e + (f + (g + h)))))))
  {
    Assoc(dst + a + b + c + d + e + f, g, h);
    Assoc(dst + a + b + c + d + e, f, g + h);
    Rope(dst, a, b, c, d, e, f + (g + h));
  }

  /** appendProduceResponse: the bytes are the compact text of the response's tree and a newline. */
  method AppendProduceResponse(dst: string, table: char -> bool, results: seq<ProduceResult>, meta: Meta) returns (out: string)
    ensures out == dst + PrintOnto(ResponseTree(table, results, meta), "\n")
  {
    out := dst + ['{'];
    out := out + OFFSETS_HEAD;
    out := AppendOffsets(out, table, results);
    out := out + KEY_ID_KEY;
    out := AppendNullableInt(out, meta.keySchemaId);
    out := out + VALUE_ID_KEY;
    out := AppendNullableInt(out, meta.valueSchemaId);
    ResponseText(table, results, meta);
    LongRope(dst, ['{'], OFFSETS_HEAD, Print(OffsetsTree(table, results)), KEY_ID_KEY, Print(NullableIntTree(meta.keySchemaId)),
             VALUE_ID_KEY, Print(NullableIntTree(meta.valueSchemaId)), ['}'] + "\n");
    out := out + (['}'] + "\n");
  }
}
