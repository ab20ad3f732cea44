/** What a client can read out of the hand-written response: whether it parses at all, and what it
    then says. */
module ResponseReader {
  import opened Base
  import opened Records
  import opened Json
  import opened JsonProofs
  import opened Decimal
  import opened ProduceResponse

  // ---------------------------------------------------------------------------------------
  // Trees that are well formed except for string bodies no reader gets past

  ghost predicate Nearly(t: Tree) {
    match t
    case Atom(text) => IsAtom(text)
    case Text(body) => IsBody(body) || Stuck(body)
    case Empty(_, gap) => AllSpace(gap)
    case Group(isObject, items) => ItemsNearly(items, isObject)
  }

  ghost predicate ItemsNearly(i: Items, isObject: bool) {
    && LabelOk(i.tag, isObject)
    && AllSpace(i.before)
    && Nearly(i.item)
    && AllSpace(i.after)
    && (i.More? ==> ItemsNearly(i.rest, isObject))
  }

  /** One bad string anywhere makes the whole text unreadable. */
  lemma {:induction false} ParseValueRejects(t: Tree, tail: string)
    requires Nearly(t) && !WellFormed(t)
    ensures ParseValue(PrintOnto(t, tail)).None?
    decreases t, 0
  {
    if t.Text? {
      assert PrintOnto(t, tail)[1..] == t.body + (['\"'] + tail);
    } else {
      var rest := [Closing(t.isObject)] + tail;
      ParseItemsRejects(t.items, t.isObject, rest);
      assert Nearly(t.items.item);
      ItemsDoNotClose(t.items, t.isObject, rest);
      assert PrintOnto(t, tail)[1..] == PrintItemsOnto(t.items, rest);
    }
  }

  lemma {:induction false} ParseItemsRejects(i: Items, isObject: bool, tail: string)
    requires ItemsNearly(i, isObject) && !ItemsOk(i, isObject) && Starts(tail, Closing(isObject))
    ensures ParseItems(PrintItemsOnto(i, tail), isObject).None?
    decreases i, 1
  {
    var next := if i.One? then tail else [','] + PrintItemsOnto(i.rest, tail);
    if WellFormed(i.item) {
      GapDelimits(i.after, next);
      ParseValueComplete(i.item, i.after + next);
      ParseItemComplete(i, isObject, next);
      ParseItemsRejects(i.rest, isObject, tail);
      assert next[1..] == PrintItemsOnto(i.rest, tail);
    } else {
      var item := PrintOnto(i.item, i.after + next);
      ParseLabelComplete(i.tag, isObject, i.before + item);
      PrintStartsValue(i.item, i.after + next);
      TakeSpaceIs(i.before, item);
      ParseValueRejects(i.item, i.after + next);
    }
  }

  // ---------------------------------------------------------------------------------------
  // When the response is JSON

  predicate IsPlain(c: char) {
    ' ' <= c && c != '\"' && c != '\\'
  }

  predicate AllPlain(s: string) {
    forall i :: 0 <= i < |s| ==> IsPlain(s[i])
  }

  lemma {:induction false} PlainIsBody(s: string)
    requires AllPlain(s)
    ensures IsBody(s)
  {
    if s != "" {
      PlainIsBody(s[1..]);
    }
  }

  lemma {:induction false} KeysArePlain()
    ensures AllPlain("partition") && AllPlain("offset") && AllPlain("error_code") && AllPlain("error")
    ensures AllPlain("offsets") && AllPlain("key_schema_id") && AllPlain("value_schema_id")
  {
  }

  lemma {:induction false} FourMembersOk(n1: string, n2: string, n3: string, n4: string, t1: Tree, t2: Tree, t3: Tree, t4: Tree)
    requires IsBody(n1) && IsBody(n2) && IsBody(n3) && IsBody(n4)
    requires Nearly(t1) && Nearly(t2) && Nearly(t3) && Nearly(t4)
    ensures
      var t := FourMembers(n1, n2, n3, n4, t1, t2, t3, t4);
      Nearly(t) && (WellFormed(t) <==> WellFormed(t1) && WellFormed(t2) && WellFormed(t3) && WellFormed(t4))
  {
    var m4 := One(Key(n4), "", t4, "");
    var m3 := More(Key(n3), "", t3, "", m4);
    var m2 := More(Key(n2), "", t2, "", m3);
    assert ItemsNearly(m4, true) && (ItemsOk(m4, true) <==> WellFormed(t4));
    assert ItemsNearly(m3, true) && (ItemsOk(m3, true) <==> WellFormed(t3) && ItemsOk(m4, true));
    assert ItemsNearly(m2, true) && (ItemsOk(m2, true) <==> WellFormed(t2) && ItemsOk(m3, true));
  }

  lemma {:induction false} ThreeMembersOk(n1: string, n2: string, n3: string, t1: Tree, t2: Tree, t3: Tree)
    requires IsBody(n1) && IsBody(n2) && IsBody(n3)
    requires Nearly(t1) && Nearly(t2) && Nearly(t3)
    ensures
      var t := ThreeMembers(n1, n2, n3, t1, t2, t3);
      Nearly(t) && (WellFormed(t) <==> WellFormed(t1) && WellFormed(t2) && WellFormed(t3))
  {
    var m3 := One(Key(n3), "", t3, "");
    var m2 := More(Key(n2), "", t2, "", m3);
    assert ItemsNearly(m3, true) && (ItemsOk(m3, true) <==> WellFormed(t3));
    assert ItemsNearly(m2, true) && (ItemsOk(m2, true) <==> WellFormed(t2) && ItemsOk(m3, true));
  }

  lemma {:induction false} ArrayItemsOk(trees: seq<Tree>)
    requires trees != [] && forall i :: 0 <= i < |trees| ==> Nearly(trees[i])
    ensures ItemsNearly(ArrayItems(trees), false)
    ensures ItemsOk(ArrayItems(trees), false) <==> forall i :: 0 <= i < |trees| ==> WellFormed(trees[i])
  {
    if |trees| > 1 {
      ArrayItemsOk(trees[1..]);
      assert forall i :: 0 < i < |trees| ==> trees[i] == trees[1..][i - 1];
      assert forall i :: 0 <= i < |trees| - 1 ==> trees[1..][i] == trees[i + 1];
    }
  }

  /** Every error text is one AppendQuote writes with JSON escapes only. */
  predicate TextsSafe(table: char -> bool, results: seq<ProduceResult>) {
    forall i :: 0 <= i < |results| ==> TextSafe(table, results[i])
  }

  predicate TextSafe(table: char -> bool, r: ProduceResult) {
    r.err.Some? ==> AllSafe(table, r.err.value)
  }

  /** The text used for a code without an error is always safe. */
  lemma {:induction false} DefaultTextIsSafe(table: char -> bool, r: ProduceResult)
    ensures r.err.None? ==> AllSafe(table, ResultErrorMessage(r))
  {
    var text := "Kafka produce failed";
    assert forall i :: 0 <= i < |text| ==> ' ' <= text[i] < DELETE;
  }

  lemma {:induction false} IntTreeOk(n: int)
    ensures WellFormed(IntTree(n)) && Nearly(IntTree(n))
  {
    FormatIntIsAtom(n);
  }

  lemma {:induction false} EntryTreeOk(partition: Tree, offset: Tree, code: Tree, error: Tree)
    requires Nearly(partition) && Nearly(offset) && Nearly(code) && Nearly(error)
    ensures
      var t := EntryTree(partition, offset, code, error);
      Nearly(t) && (WellFormed(t) <==> WellFormed(partition) && WellFormed(offset) && WellFormed(code) && WellFormed(error))
  {
    var n1, n2, n3, n4 := "partition", "offset", "error_code", "error";
    KeysArePlain();
    PlainIsBody(n1);
    PlainIsBody(n2);
    PlainIsBody(n3);
    PlainIsBody(n4);
    FourMembersOk(n1, n2, n3, n4, partition, offset, code, error);
  }

  lemma {:induction false} ResultTreeOk(table: char -> bool, r: ProduceResult)
    ensures Nearly(ResultTree(table, r))
    ensures WellFormed(ResultTree(table, r)) <==> TextSafe(table, r)
  {
    NullIsAtom();
    FailureIsReported(r);
    DefaultTextIsSafe(table, r);
    if ResultFailed(r) {
      IntTreeOk(ResultErrorCode(r));
      QuoteIsBodyIffSafe(table, ResultErrorMessage(r));
      EntryTreeOk(NULL, NULL, IntTree(ResultErrorCode(r)), Text(QuoteBody(table, ResultErrorMessage(r))));
    } else {
      IntTreeOk(r.partition);
      IntTreeOk(r.offset);
      EntryTreeOk(IntTree(r.partition), IntTree(r.offset), NULL, NULL);
    }
  }

  lemma {:induction false} OffsetsTreeOk(table: char -> bool, results: seq<ProduceResult>)
    ensures Nearly(OffsetsTree(table, results))
    ensures WellFormed(OffsetsTree(table, results)) <==> TextsSafe(table, results)
  {
    var trees := ResultTrees(table, results);
    forall i | 0 <= i < |results|
      ensures Nearly(trees[i]) && (WellFormed(trees[i]) <==> TextSafe(table, results[i]))
    {
      ResultTreeOk(table, results[i]);
    }
    if results != [] {
      ArrayItemsOk(trees);
    }
  }

  lemma {:induction false} NullableIntOk(n: Option<int>)
    ensures WellFormed(NullableIntTree(n)) && Nearly(NullableIntTree(n))
  {
    NullIsAtom();
    if n.Some? { IntTreeOk(n.value); }
  }

  lemma {:induction false} ResponseTreeOk(table: char -> bool, results: seq<ProduceResult>, meta: Meta)
    ensures Nearly(ResponseTree(table, results, meta))
    ensures WellFormed(ResponseTree(table, results, meta)) <==> TextsSafe(table, results)
  {
    var n1, n2, n3 := "offsets", "key_schema_id", "value_schema_id";
    KeysArePlain();
    PlainIsBody(n1);
    PlainIsBody(n2);
    PlainIsBody(n3);
    OffsetsTreeOk(table, results);
    NullableIntOk(meta.keySchemaId);
    NullableIntOk(meta.valueSchemaId);
    ThreeMembersOk(n1, n2, n3, OffsetsTree(table, results), NullableIntTree(meta.keySchemaId), NullableIntTree(meta.valueSchemaId));
  }

  /** The response bytes: what AppendProduceResponse appends. */
  function ResponseBytes(table: char -> bool, results: seq<ProduceResult>, meta: Meta): string {
    PrintOnto(ResponseTree(table, results, meta), "\n")
  }

  lemma {:induction false} ParseNearly(t: Tree, after: string)
    requires Nearly(t) && AllSpace(after)
    ensures Parse(PrintOnto(t, after)) == if WellFormed(t) then Some(Document("", t, after)) else None
  {
    var s := PrintOnto(t, after);
    assert "" + s == s;
    if WellFormed(t) {
      ParseIsComplete(Document("", t, after));
    } else {
      PrintStartsValue(t, after);
      TakeSpaceIs("", s);
      ParseValueRejects(t, after);
    }
  }

  /** The response is a JSON text exactly when every error text is safe; then parsing it gives back
      the very tree that was printed. */
  lemma {:induction false} ResponseParsesIffSafe(table: char -> bool, results: seq<ProduceResult>, meta: Meta)
    ensures Parse(ResponseBytes(table, results, meta)).Some? <==> TextsSafe(table, results)
    ensures TextsSafe(table, results) ==>
            Parse(ResponseBytes(table, results, meta)) == Some(Document("", ResponseTree(table, results, meta), "\n"))
  {
    ResponseTreeOk(table, results, meta);
    ParseNearly(ResponseTree(table, results, meta), "\n");
  }

  /** "The response is always JSON" is false of the code: a bell, or a byte that is not UTF-8, in an
      error text. */
  lemma {:induction false} BellBreaksResponse(table: char -> bool, bad: Rune)
    requires bad == Char('\U{7}') || bad.BadByte?
    ensures Parse(ResponseBytes(table, [ProduceResult(0, 0, None, Some([bad]))], Meta(None, None))).None?
  {
    var results := [ProduceResult(0, 0, None, Some([bad]))];
    assert !IsSafe(table, results[0].err.value[0]);
    ResponseParsesIffSafe(table, results, Meta(None, None));
  }

  // ---------------------------------------------------------------------------------------
  // What it says

  datatype Offset = Offset(partition: Option<int>, offset: Option<int>, errorCode: Option<int>, error: Option<string>)

  datatype Response = Response(offsets: seq<Offset>, keySchemaId: Option<int>, valueSchemaId: Option<int>)

  /** The member with this name; the last one if it occurs again. */
  function Find(i: Items, name: string): Option<Tree> {
    var own := if i.tag.Label? && i.tag.key == name then Some(i.item) else None;
    if i.One? then own
    else
      var later := Find(i.rest, name);
      if later.Some? then later else own
  }

  /** A nullable integer field: absent and null both read as none. */
  function ReadInt(t: Option<Tree>): Option<Option<int>> {
    if t.None? || t.value == NULL then Some(None)
    else if t.value.Atom? && ParseInt(t.value.text).Some? then Some(ParseInt(t.value.text))
    else None
  }

  function ReadText(t: Option<Tree>): Option<Option<string>> {
    if t.None? || t.value == NULL then Some(None)
    else if t.value.Text? && Unquote(t.value.body).Some? then Some(Unquote(t.value.body))
    else None
  }

  function ReadOffset(t: Tree): Option<Offset> {
    if !(t.Group? && t.isObject) then None
    else
      var partition := ReadInt(Find(t.items, "partition"));
      var offset := ReadInt(Find(t.items, "offset"));
      var code := ReadInt(Find(t.items, "error_code"));
      var error := ReadText(Find(t.items, "error"));
      if partition.None? || offset.None? || code.None? || error.None? then None
      else Some(Offset(partition.value, offset.value, code.value, error.value))
  }

  function ReadOffsets(i: Items): Option<seq<Offset>> {
    var first := ReadOffset(i.item);
    var rest := if i.One? then Some([]) else ReadOffsets(i.rest);
    if first.None? || rest.None? then None else Some([first.value] + rest.value)
  }

  function ReadResponse(t: Tree): Option<Response> {
    if !(t.Group? && t.isObject) then None
    else
      var offsets := Find(t.items, "offsets");
      var keyId := ReadInt(Find(t.items, "key_schema_id"));
      var valueId := ReadInt(Find(t.items, "value_schema_id"));
      var list :=
        if offsets.None? || !(offsets.value.Group? || offsets.value.Empty?) || offsets.value.isObject then None
        else if offsets.value.Empty? then Some([])
        else ReadOffsets(offsets.value.items);
      if list.None? || keyId.None? || valueId.None? then None
      else Some(Response(list.value, keyId.value, valueId.value))
  }

  /** What a client must be told about one result. */
  function Reported(r: ProduceResult): Offset {
    if r.err.Some? || r.errorCode.Some? then
      Offset(None, None,
             Some(if r.errorCode.Some? then r.errorCode.value else 50002),
             Some(if r.err.Some? then Shown(r.err.value) else "Kafka produce failed"))
    else Offset(Some(r.partition), Some(r.offset), None, None)
  }

  lemma {:induction false} ReadFormatted(n: int)
    ensures ReadInt(Some(IntTree(n))) == Some(Some(n))
  {
    FormatIntIsAtom(n);
    IntRoundTrip(n);
  }

  lemma {:induction false} KeysDiffer()
    ensures "partition" != "offset" && "partition" != "error_code" && "partition" != "error"
    ensures "offset" != "error_code" && "offset" != "error" && "error_code" != "error"
    ensures "offsets" != "key_schema_id" && "offsets" != "value_schema_id" && "key_schema_id" != "value_schema_id"
  {
    assert "partition"[0] == 'p' && "offset"[0] == 'o' && "error"[0] == 'e' && "error_code"[0] == 'e';
    assert |"error_code"| != |"error"|;
    assert "offsets"[0] == 'o' && "key_schema_id"[0] == 'k' && "value_schema_id"[0] == 'v';
  }

  lemma {:induction false} FindInFour(n1: string, n2: string, n3: string, n4: string, t1: Tree, t2: Tree, t3: Tree, t4: Tree)
    requires n1 != n2 && n1 != n3 && n1 != n4 && n2 != n3 && n2 != n4 && n3 != n4
    ensures
      var items := FourMembers(n1, n2, n3, n4, t1, t2, t3, t4).items;
      Find(items, n1) == Some(t1) && Find(items, n2) == Some(t2) && Find(items, n3) == Some(t3) && Find(items, n4) == Some(t4)
  {
    var m4 := One(Key(n4), "", t4, "");
    var m3 := More(Key(n3), "", t3, "", m4);
    var m2 := More(Key(n2), "", t2, "", m3);
    assert Find(m3, n1) == None && Find(m3, n2) == None;
    assert Find(m3, n3) == Some(t3) && Find(m3, n4) == Some(t4);
    assert Find(m2, n1) == None && Find(m2, n2) == Some(t2) && Find(m2, n3) == Some(t3) && Find(m2, n4) == Some(t4);
  }

  lemma {:induction false} ReadEntry(partition: Tree, offset: Tree, code: Tree, error: Tree)
    ensures
      var t := EntryTree(partition, offset, code, error);
      && Find(t.items, "partition") == Some(partition)
      && Find(t.items, "offset") == Some(offset)
      && Find(t.items, "error_code") == Some(code)
      && Find(t.items, "error") == Some(error)
  {
    KeysDiffer();
    FindInFour("partition", "offset", "error_code", "error", partition, offset, code, error);
  }

  lemma {:induction false} ReadFailedResult(table: char -> bool, r: ProduceResult)
    requires TextSafe(table, r) && ResultFailed(r)
    ensures ReadOffset(ResultTree(table, r)) == Some(Reported(r))
  {
    FailureIsReported(r);
    DefaultTextIsSafe(table, r);
    var text := ResultErrorMessage(r);
    var body := QuoteBody(table, text);
    ReadEntry(NULL, NULL, IntTree(ResultErrorCode(r)), Text(body));
    ReadFormatted(ResultErrorCode(r));
    QuoteRoundTrip(table, text);
  }

  lemma {:induction false} ReadResult(table: char -> bool, r: ProduceResult)
    requires TextSafe(table, r)
    ensures ReadOffset(ResultTree(table, r)) == Some(Reported(r))
  {
    if ResultFailed(r) {
      ReadFailedResult(table, r);
    } else {
      ReadEntry(IntTree(r.partition), IntTree(r.offset), NULL, NULL);
      ReadFormatted(r.partition);
      ReadFormatted(r.offset);
    }
  }

  lemma {:induction false} ReadArray(trees: seq<Tree>, offsets: seq<Offset>)
    requires trees != [] && |trees| == |offsets|
    requires forall i :: 0 <= i < |trees| ==> ReadOffset(trees[i]) == Some(offsets[i])
    ensures ReadOffsets(ArrayItems(trees)) == Some(offsets)
  {
    if |trees| == 1 {
      assert [offsets[0]] + [] == offsets;
    } else {
      ReadArray(trees[1..], offsets[1..]);
      assert [offsets[0]] + offsets[1..] == offsets;
    }
  }

  /** One report per result, in order. */
  function Reports(results: seq<ProduceResult>): seq<Offset> {
    seq(|results|, i requires 0 <= i < |results| => Reported(results[i]))
  }

  lemma {:induction false} ReadResults(table: char -> bool, results: seq<ProduceResult>)
    requires results != [] && TextsSafe(table, results)
    ensures ReadOffsets(ArrayItems(ResultTrees(table, results))) == Some(Reports(results))
  {
    forall i | 0 <= i < |results|
      ensures ReadOffset(ResultTrees(table, results)[i]) == Some(Reports(results)[i])
    {
      ReadResult(table, results[i]);
    }
    ReadArray(ResultTrees(table, results), Reports(results));
  }

  /** Round trip: parsing the printed bytes gives one entry per result in order, partition and offset
      for a delivered one, null and null with code and text for a failed one, and the schema ids. */
  lemma {:induction false} ResponseRoundTrip(table: char -> bool, results: seq<ProduceResult>, meta: Meta)
    requires TextsSafe(table, results)
    ensures
      var d := Parse(ResponseBytes(table, results, meta));
      && d.Some?
      && ReadResponse(d.value.tree) == Some(Response(Reports(results), meta.keySchemaId, meta.valueSchemaId))
  {
    ResponseParsesIffSafe(table, results, meta);
    ReadResponseTree(table, results, meta);
  }

  lemma {:induction false} FindInThree(n1: string, n2: string, n3: string, t1: Tree, t2: Tree, t3: Tree)
    requires n1 != n2 && n1 != n3 && n2 != n3
    ensures
      var items := ThreeMembers(n1, n2, n3, t1, t2, t3).items;
      Find(items, n1) == Some(t1) && Find(items, n2) == Some(t2) && Find(items, n3) == Some(t3)
  {
    var m2 := More(Key(n2), "", t2, "", One(Key(n3), "", t3, ""));
    assert Find(m2, n1) == None && Find(m2, n2) == Some(t2) && Find(m2, n3) == Some(t3);
  }

  lemma {:induction false} ReadNullable(n: Option<int>)
    ensures ReadInt(Some(NullableIntTree(n))) == Some(n)
  {
    if n.Some? { ReadFormatted(n.value); }
  }

  lemma {:induction false} ReadResponseTree(table: char -> bool, results: seq<ProduceResult>, meta: Meta)
    requires TextsSafe(table, results)
    ensures ReadResponse(ResponseTree(table, results, meta)) ==
            Some(Response(Reports(results), meta.keySchemaId, meta.valueSchemaId))
  {
    KeysDiffer();
    FindInThree("offsets", "key_schema_id", "value_schema_id", OffsetsTree(table, results),
                NullableIntTree(meta.keySchemaId), NullableIntTree(meta.valueSchemaId));
    ReadNullable(meta.keySchemaId);
    ReadNullable(meta.valueSchemaId);
    if results == [] {
      assert Reports(results) == [];
    } else {
      ReadResults(table, results);
    }
  }
}
