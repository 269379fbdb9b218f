/** invoice-service/db.c: the invoice table, and invoices printed as JSON into buffers
    of fixed size. */
module InvoiceStore {
  import opened InvoiceParser
  import opened InvoicePayload
  import opened JsonReader
  import opened JsonScanner
  import opened JsonText
  import opened Numbers
  import opened PrintedJson
  import opened Wrappers

  // MARK: printing one invoice

  const ELEMENT_SIZE: nat := 1024

  /** What `snprintf` leaves in a buffer of 1024 bytes. */
  function Printed(s: string): (r: string)
    ensures |r| < ELEMENT_SIZE && r <= s
    ensures if |s| < ELEMENT_SIZE then r == s else |r| == ELEMENT_SIZE - 1
  {
    if |s| < ELEMENT_SIZE then s else s[..ELEMENT_SIZE - 1]
  }

  /** The format string of json_invoice_model, filled in; the strings go in unescaped. */
  function ModelFormat(inv: Invoice): string {
    "{" + ("\"id\": " + Dec(inv.id) + (", "
    + ("\"sid\": \"" + inv.sid + "\"" + (", "
    + ("\"user_id\": " + Dec(inv.userId) + (", "
    + ("\"order_sid\": \"" + inv.orderSid + "\"" + (", "
    + ("\"product_sid\": \"" + inv.productSid + "\"" + (", "
    + ("\"created_at\": " + Dec(inv.createdAt) + "}")))))))))))
  }

  function JsonInvoiceModel(inv: Invoice): string {
    Printed(ModelFormat(inv))
  }

  function ModelFields(inv: Invoice): seq<Field> {
    [Field("id", Num(Dec(inv.id)))]
    + ([Field("sid", Str(inv.sid))]
    + ([Field("user_id", Num(Dec(inv.userId)))]
    + ([Field("order_sid", Str(inv.orderSid))]
    + ([Field("product_sid", Str(inv.productSid))]
    + ([Field("created_at", Num(Dec(inv.createdAt)))] + [])))))
  }

  lemma PrintedString(literal: string, name: string, body: string, rest: seq<Field>)
    requires rest != [] && literal == QUOTE + name + "\": \""
    ensures Members(" ", [Field(name, Str(body))] + rest)
            == literal + body + "\"" + (", " + Members(" ", rest))
  {
    var f := Field(name, Str(body));
    assert ([f] + rest)[1..] == rest;
    assert FieldText(" ", f) == literal + body + "\"";
    assert "," + " " == ", ";
  }

  lemma PrintedNumber(literal: string, name: string, text: string, rest: seq<Field>)
    requires literal == QUOTE + name + "\": "
    ensures Members(" ", [Field(name, Num(text))] + rest)
            == literal + text + if rest == [] then "}" else ", " + Members(" ", rest)
  {
    var f := Field(name, Num(text));
    assert ([f] + rest)[1..] == rest;
    assert FieldText(" ", f) == literal + text;
    assert "," + " " == ", ";
  }

  /** The hand-written format is the generic object text with one space after each
      separator. */
  lemma {:induction false} FormatIsObject(inv: Invoice)
    ensures ModelFormat(inv) == ObjectText(" ", ModelFields(inv))
  {
    var f6 := [Field("created_at", Num(Dec(inv.createdAt)))] + [];
    var f5 := [Field("product_sid", Str(inv.productSid))] + f6;
    var f4 := [Field("order_sid", Str(inv.orderSid))] + f5;
    var f3 := [Field("user_id", Num(Dec(inv.userId)))] + f4;
    var f2 := [Field("sid", Str(inv.sid))] + f3;
    PrintedNumber("\"created_at\": ", "created_at", Dec(inv.createdAt), []);
    PrintedString("\"product_sid\": \"", "product_sid", inv.productSid, f6);
    PrintedString("\"order_sid\": \"", "order_sid", inv.orderSid, f5);
    PrintedNumber("\"user_id\": ", "user_id", Dec(inv.userId), f4);
    PrintedString("\"sid\": \"", "sid", inv.sid, f3);
    PrintedNumber("\"id\": ", "id", Dec(inv.id), f2);
  }

  /** The struct's C types, with SIDs that fit the parser's buffers. */
  predicate InRange(inv: Invoice) {
    && inv.id < 256 && inv.userId < 256 && |inv.sid| <= 26
    && |inv.orderSid| <= 99 && |inv.productSid| <= 99
    && -0x8000_0000_0000_0000 <= inv.createdAt < 0x8000_0000_0000_0000
  }

  /** Such an element is never truncated. */
  lemma {:induction false} NeverTruncated(inv: Invoice)
    requires InRange(inv)
    ensures JsonInvoiceModel(inv) == ModelFormat(inv)
  {
    assert Pow10(10) == 100_0000_0000 by { assert Pow10(5) == 10_0000; }
    assert Pow10(19) == 1000_0000_0000_0000_0000;
    DecNatLength(inv.id, 3);
    DecNatLength(inv.userId, 3);
    DecNatLength(if inv.createdAt < 0 then -inv.createdAt else inv.createdAt, 19);
  }

  /** Any key is read back from a printed invoice as the fields say. */
  lemma {:induction false} PrintedModelLookup(inv: Invoice, key: string)
    requires InRange(inv) && CleanKey(key)
    requires WellEscaped(inv.sid) && WellEscaped(inv.orderSid) && WellEscaped(inv.productSid)
    ensures Extract(JsonInvoiceModel(inv), key) == Lookup(ModelFields(inv), key)
  {
    NeverTruncated(inv);
    FormatIsObject(inv);
    ModelFieldsAreClean(inv);
    ExtractIsLookup(" ", ModelFields(inv), key);
  }

  /** The three strings are bodies that can stand between quotes. */
  predicate SoundSids(inv: Invoice) {
    && WellEscaped(inv.sid) && WellEscaped(inv.orderSid) && WellEscaped(inv.productSid)
    && Printable(inv.sid) && Printable(inv.orderSid) && Printable(inv.productSid)
  }

  lemma ReadableCons(f: Field, rest: seq<Field>)
    requires CleanKey(f.key) && Readable(f.value) && ReadableFields(rest)
    ensures ReadableFields([f] + rest)
  {
  }

  lemma ModelFieldsAreReadable(inv: Invoice)
    requires SoundSids(inv)
    ensures ReadableFields(ModelFields(inv))
  {
    forall i | 0 <= i < 6 ensures CleanKey(ModelKey(i)) {
      ModelKeyIsClean(i);
    }
    var f6 := [Field(ModelKey(5), Num(Dec(inv.createdAt)))] + [];
    var f5 := [Field(ModelKey(4), Str(inv.productSid))] + f6;
    var f4 := [Field(ModelKey(3), Str(inv.orderSid))] + f5;
    var f3 := [Field(ModelKey(2), Num(Dec(inv.userId)))] + f4;
    var f2 := [Field(ModelKey(1), Str(inv.sid))] + f3;
    ReadableCons(Field(ModelKey(5), Num(Dec(inv.createdAt))), []);
    ReadableCons(Field(ModelKey(4), Str(inv.productSid)), f6);
    ReadableCons(Field(ModelKey(3), Str(inv.orderSid)), f5);
    ReadableCons(Field(ModelKey(2), Num(Dec(inv.userId))), f4);
    ReadableCons(Field(ModelKey(1), Str(inv.sid)), f3);
    ReadableCons(Field(ModelKey(0), Num(Dec(inv.id))), f2);
  }

  lemma ModelFieldsAre(inv: Invoice)
    ensures ModelFields(inv)
            == [Field("id", Num(Dec(inv.id))), Field("sid", Str(inv.sid)), Field("user_id", Num(Dec(inv.userId))),
                Field("order_sid", Str(inv.orderSid)), Field("product_sid", Str(inv.productSid)),
                Field("created_at", Num(Dec(inv.createdAt)))]
  {
  }

  /** A printed invoice is JSON: a reader that follows the standard finds its six fields
      under their names. */
  lemma {:induction false} PrintedModelReads(inv: Invoice, t: string)
    requires InRange(inv) && SoundSids(inv)
    ensures ReadObject(JsonInvoiceModel(inv) + t)
            == Read([Field("id", Num(Dec(inv.id))), Field("sid", Str(inv.sid)),
                     Field("user_id", Num(Dec(inv.userId))), Field("order_sid", Str(inv.orderSid)),
                     Field("product_sid", Str(inv.productSid)), Field("created_at", Num(Dec(inv.createdAt)))], t)
  {
    NeverTruncated(inv);
    FormatIsObject(inv);
    ModelFieldsAreReadable(inv);
    ReadObjectOf(" ", ModelFields(inv), t);
    ModelFieldsAre(inv);
  }

  /** Extract, print, extract: SID bodies taken from terminated JSON strings and printed
      raw come back byte for byte, unless an earlier SID hides the key. */
  lemma {:induction false} ExtractPrintExtract(inv: Invoice, sidText: string, orderText: string, productText: string)
    requires InRange(inv)
    requires Terminated(sidText) && inv.sid == CopyString(sidText)
    requires Terminated(orderText) && inv.orderSid == CopyString(orderText)
    requires Terminated(productText) && inv.productSid == CopyString(productText)
    ensures Extract(JsonInvoiceModel(inv), ModelKey(3)) == ExpectedOrderSid(inv)
    ensures Extract(JsonInvoiceModel(inv), ModelKey(4)) == ExpectedProductSid(inv)
  {
    CopiedIsWellEscaped(sidText);
    CopiedIsWellEscaped(orderText);
    CopiedIsWellEscaped(productText);
    ModelKeyIsClean(3);
    ModelKeyIsClean(4);
    PrintedModelLookup(inv, ModelKey(3));
    PrintedModelLookup(inv, ModelKey(4));
    LookupOrderSid(inv);
    LookupProductSid(inv);
  }

  /** The SID that a new invoice gets: a ULID. */
  predicate Ulid(sid: string) {
    |sid| == 26 && forall c | c in sid :: IdentChar(c)
  }

  lemma QuotedEndHasQuote(t: string, key: string)
    ensures EndsWith(t, QUOTE + key) ==> '"' in t
  {
    if EndsWith(t, QUOTE + key) {
      assert t[|t| - |QUOTE + key|] == (QUOTE + key)[0];
    }
  }

  lemma {:induction false} UlidIsHarmless(sid: string, key: string)
    requires Ulid(sid) && |key| != 26
    ensures WellEscaped(sid) && !Clash(Str(sid), key)
  {
    PlainPrefix(sid, "");
    assert sid + "" == sid;
    QuotedEndHasQuote(sid, key);
  }

  lemma {:induction false} OrderSidHidesNothing(m: InvoiceMsg)
    requires NothingHidden(m)
    ensures !Clash(Str(Escape(m.orderSid)), ModelKey(4))
  {
    assert Findable(m, 2) && !Hides(m, 1, StepKey(2));
    ModelKeyIsClean(4);
    ClashIsRaw(m.orderSid, ModelKey(4));
  }

  lemma {:induction false} AcceptedIsInRange(m: InvoiceMsg, inv: Invoice, out: Invoice, id: nat)
    requires Parses(inv, PayloadText(m), 0, out) && id < 256 && Ulid(inv.sid)
    requires -0x8000_0000_0000_0000 <= inv.createdAt < 0x8000_0000_0000_0000
    ensures InRange(out.(id := id)) && out == InvoiceFor(inv, m) && NothingHidden(m)
  {
    AcceptedInvoice(m, inv, out);
    assert Fits(m, 1) && Fits(m, 2);
  }

  /** The invoice of any accepted message, stored under any id and printed, gives back
      its own SID and the escaped order and product SIDs of the message. */
  lemma {:induction false} AcceptedInvoicePrints(m: InvoiceMsg, inv: Invoice, out: Invoice, id: nat)
    requires Parses(inv, PayloadText(m), 0, out) && id < 256 && Ulid(inv.sid)
    requires -0x8000_0000_0000_0000 <= inv.createdAt < 0x8000_0000_0000_0000
    ensures var json := JsonInvoiceModel(out.(id := id));
            && Extract(json, ModelKey(1)) == Some(inv.sid)
            && Extract(json, ModelKey(3)) == Some(Escape(m.orderSid))
            && Extract(json, ModelKey(4)) == Some(Escape(m.productSid))
  {
    var stored := out.(id := id);
    AcceptedIsInRange(m, inv, out, id);
    UlidIsHarmless(inv.sid, ModelKey(3));
    UlidIsHarmless(inv.sid, ModelKey(4));
    EscapeIsWellEscaped(m.orderSid);
    EscapeIsWellEscaped(m.productSid);
    OrderSidHidesNothing(m);
    ModelKeyIsClean(1);
    ModelKeyIsClean(3);
    ModelKeyIsClean(4);
    PrintedModelLookup(stored, ModelKey(1));
    PrintedModelLookup(stored, ModelKey(3));
    PrintedModelLookup(stored, ModelKey(4));
    LookupSid(stored);
    LookupOrderSid(stored);
    LookupProductSid(stored);
  }

  /** The order SID, unless the invoice's own SID hides its key. */
  function ExpectedOrderSid(inv: Invoice): Option<string> {
    if Clash(Str(inv.sid), "order_sid") then None else Some(inv.orderSid)
  }

  /** The product SID, unless one of the SIDs printed before it hides its key. */
  function ExpectedProductSid(inv: Invoice): Option<string> {
    if Clash(Str(inv.sid), "product_sid") || Clash(Str(inv.orderSid), "product_sid") then None
    else Some(inv.productSid)
  }

  lemma CleanCons(f: Field, rest: seq<Field>)
    requires CleanKey(f.key) && CleanFields(rest)
    requires f.value.Str? ==> WellEscaped(f.value.body)
    requires f.value.Num? ==> CleanNumber(f.value.text)
    ensures CleanFields([f] + rest)
  {
  }

  function ModelKey(i: nat): string
    requires i < 6
  {
    match i
    case 0 => "id"
    case 1 => "sid"
    case 2 => "user_id"
    case 3 => "order_sid"
    case 4 => "product_sid"
    case _ => "created_at"
  }

  lemma ModelKeyIsClean(i: nat)
    requires i < 6
    ensures CleanKey(ModelKey(i))
  {
  }

  lemma ModelFieldsAreClean(inv: Invoice)
    requires WellEscaped(inv.sid) && WellEscaped(inv.orderSid) && WellEscaped(inv.productSid)
    ensures CleanFields(ModelFields(inv))
  {
    forall i | 0 <= i < 6 ensures CleanKey(ModelKey(i)) {
      ModelKeyIsClean(i);
    }
    var f6 := [Field(ModelKey(5), Num(Dec(inv.createdAt)))] + [];
    var f5 := [Field(ModelKey(4), Str(inv.productSid))] + f6;
    var f4 := [Field(ModelKey(3), Str(inv.orderSid))] + f5;
    var f3 := [Field(ModelKey(2), Num(Dec(inv.userId)))] + f4;
    var f2 := [Field(ModelKey(1), Str(inv.sid))] + f3;
    CleanCons(Field(ModelKey(5), Num(Dec(inv.createdAt))), []);
    CleanCons(Field(ModelKey(4), Str(inv.productSid)), f6);
    CleanCons(Field(ModelKey(3), Str(inv.orderSid)), f5);
    CleanCons(Field(ModelKey(2), Num(Dec(inv.userId))), f4);
    CleanCons(Field(ModelKey(1), Str(inv.sid)), f3);
    CleanCons(Field(ModelKey(0), Num(Dec(inv.id))), f2);
  }

  lemma LookupCons(f: Field, rest: seq<Field>, key: string)
    ensures Lookup([f] + rest, key)
            == if f.key == key then Some(Raw(f.value)) else if Clash(f.value, key) then None else Lookup(rest, key)
  {
    assert ([f] + rest)[1..] == rest;
  }

  lemma {:induction false} LookupSid(inv: Invoice)
    ensures Lookup(ModelFields(inv), "sid") == Some(inv.sid)
  {
    var f3 := [Field("user_id", Num(Dec(inv.userId)))]
              + ([Field("order_sid", Str(inv.orderSid))]
              + ([Field("product_sid", Str(inv.productSid))] + ([Field("created_at", Num(Dec(inv.createdAt)))] + [])));
    var f2 := [Field("sid", Str(inv.sid))] + f3;
    LookupCons(Field("id", Num(Dec(inv.id))), f2, "sid");
    LookupCons(Field("sid", Str(inv.sid)), f3, "sid");
  }

  lemma {:induction false} LookupOrderSid(inv: Invoice)
    ensures Lookup(ModelFields(inv), "order_sid") == ExpectedOrderSid(inv)
  {
    var f5 := [Field("product_sid", Str(inv.productSid))] + ([Field("created_at", Num(Dec(inv.createdAt)))] + []);
    var f4 := [Field("order_sid", Str(inv.orderSid))] + f5;
    var f3 := [Field("user_id", Num(Dec(inv.userId)))] + f4;
    var f2 := [Field("sid", Str(inv.sid))] + f3;
    LookupCons(Field("id", Num(Dec(inv.id))), f2, "order_sid");
    LookupCons(Field("sid", Str(inv.sid)), f3, "order_sid");
    LookupCons(Field("user_id", Num(Dec(inv.userId))), f4, "order_sid");
    LookupCons(Field("order_sid", Str(inv.orderSid)), f5, "order_sid");
  }

  lemma {:induction false} LookupProductSid(inv: Invoice)
    ensures Lookup(ModelFields(inv), "product_sid") == ExpectedProductSid(inv)
  {
    var f6 := [Field("created_at", Num(Dec(inv.createdAt)))] + [];
    var f5 := [Field("product_sid", Str(inv.productSid))] + f6;
    var f4 := [Field("order_sid", Str(inv.orderSid))] + f5;
    var f3 := [Field("user_id", Num(Dec(inv.userId)))] + f4;
    var f2 := [Field("sid", Str(inv.sid))] + f3;
    LookupCons(Field("id", Num(Dec(inv.id))), f2, "product_sid");
    LookupCons(Field("sid", Str(inv.sid)), f3, "product_sid");
    LookupCons(Field("user_id", Num(Dec(inv.userId))), f4, "product_sid");
    LookupCons(Field("order_sid", Str(inv.orderSid)), f5, "product_sid");
    LookupCons(Field("product_sid", Str(inv.productSid)), f6, "product_sid");
  }

  // MARK: printing many invoices

  /** Comma-joined texts. */
  function Joined(es: seq<string>): string {
    if es == [] then ""
    else if |es| == 1 then es[0]
    else es[0] + "," + Joined(es[1..])
  }

  function ArrayText(es: seq<string>): string {
    "[" + Joined(es) + "]"
  }

  function Elements(invs: seq<Invoice>): (es: seq<string>)
    ensures |es| == |invs| && forall e | e in es :: |e| < ELEMENT_SIZE
  {
    seq(|invs|, i requires 0 <= i < |invs| => JsonInvoiceModel(invs[i]))
  }

  function BufferSize(count: nat): nat {
    ELEMENT_SIZE * count + 2
  }

  lemma {:induction false} JoinedLength(es: seq<string>)
    requires es != [] && forall e | e in es :: |e| < ELEMENT_SIZE
    ensures |Joined(es)| < ELEMENT_SIZE * |es|
  {
    assert es[0] in es && forall e | e in es[1..] :: e in es;
    if |es| > 1 {
      JoinedLength(es[1..]);
    }
  }

  /** The array and its terminator fit in the allocated buffer exactly when there is at
      least one element. */
  lemma {:induction false} FitsExactlyWhenNonEmpty(invs: seq<Invoice>)
    ensures |ArrayText(Elements(invs))| + 1 <= BufferSize(|invs|) <==> invs != []
  {
    if invs != [] {
      JoinedLength(Elements(invs));
    }
  }

  lemma {:induction false} JoinedFull(e: string, n: nat)
    requires n > 0 && |e| == ELEMENT_SIZE - 1
    ensures |Joined(seq(n, _ => e))| == ELEMENT_SIZE * n - 1
  {
    if n > 1 {
      assert seq(n, _ => e)[1..] == seq(n - 1, _ => e);
      JoinedFull(e, n - 1);
    }
  }

  /** For every positive count the bound is attained, to the last byte. */
  lemma {:induction false} BoundIsAttained(count: nat)
    requires count > 0
    ensures exists invs: seq<Invoice> :: |invs| == count && |ArrayText(Elements(invs))| + 1 == BufferSize(count)
  {
    var wide := seq(ELEMENT_SIZE, _ => 'x');
    var inv := Invoice(0, "", 0, wide, "", 0, "", "", "", 0, 0, 0);
    assert |ModelFormat(inv)| >= |wide|;
    var invs := seq(count, _ => inv);
    assert Elements(invs) == seq(count, _ => JsonInvoiceModel(inv));
    JoinedFull(JsonInvoiceModel(inv), count);
    assert |ArrayText(Elements(invs))| + 1 == BufferSize(count);
  }

  // MARK: where each element stands

  /** The position of element `i` in the array text; the one of the terminator at the end. */
  function Start(es: seq<string>, i: nat): (n: nat)
    requires i <= |es|
    ensures n > 0
  {
    if i == 0 then 1 else Start(es, i - 1) + |es[i - 1]| + 1
  }

  lemma {:induction false} TextFrom(es: seq<string>, i: nat)
    requires i < |es|
    ensures Start(es, i) <= |ArrayText(es)| && ArrayText(es)[Start(es, i)..] == ToAppend(es, i)
  {
    var t := ArrayText(es);
    if i == 0 {
      ToAppendIsJoined(es, 0);
      assert es[0..] == es && t[1..] == Joined(es) + "]";
    } else {
      TextFrom(es, i - 1);
      var k := Start(es, i - 1);
      assert t[k..] == es[i - 1] + ("," + ToAppend(es, i));
      assert t[k..][|es[i - 1]| + 1..] == t[k + |es[i - 1]| + 1..];
    }
  }

  /** The text `e` stands in `t` from position `k` on. */
  predicate StandsAt(t: string, k: nat, e: string) {
    k + |e| <= |t| && t[k..k + |e|] == e
  }

  lemma StandsInPrefix(t: string, start: string, k: nat, e: string)
    requires start <= t && StandsAt(start, k, e)
    ensures StandsAt(t, k, e)
  {
    assert t[..|start|][k..k + |e|] == t[k..k + |e|];
  }

  /** The array text, element by element. */
  lemma {:induction false} ArrayAt(es: seq<string>, i: nat)
    requires i < |es|
    ensures var t, k := ArrayText(es), Start(es, i);
            && k + |es[i]| < |t| && t[0] == '[' && StandsAt(t, k, es[i])
            && t[k + |es[i]|] == (if i + 1 < |es| then ',' else ']')
            && (i + 1 == |es| ==> |t| == k + |es[i]| + 1)
  {
    var t, k := ArrayText(es), Start(es, i);
    TextFrom(es, i);
    var sep := if i + 1 < |es| then "," else "";
    assert t[k..] == es[i] + (sep + ToAppend(es, i + 1));
    assert t[k..][..|es[i]|] == es[i] && t[k..][..|es[i]|] == t[k..k + |es[i]|];
    assert t[k..][|es[i]|] == t[k + |es[i]|];
  }

  // MARK: reading the array

  /** What a reader takes from the text `e` when `t` follows it. */
  function ReadBefore(e: string, t: string): Read<seq<Field>> {
    ReadObject(e + t)
  }

  /** A reader takes the members `fs` from the text `e`, whatever follows it. */
  ghost predicate ReadsAs(e: string, fs: seq<Field>) {
    e != "" && e[0] == '{' && forall t :: ReadBefore(e, t) == Read(fs, t)
  }

  /** One object with a comma behind it, and the objects that follow. */
  lemma ReadObjectsStep(t: string, fs: seq<Field>, rest: string, lists: seq<seq<Field>>)
    requires ReadObject(t) == Read(fs, rest) && rest != "" && rest[0] == ','
    requires ReadObjects(SkipWs(rest[1..])) == Read(lists, "")
    ensures ReadObjects(t) == Read([fs] + lists, "")
  {
  }

  /** From element `i` on, the elements read as the lists. */
  ghost predicate AllRead(es: seq<string>, i: nat, lists: seq<seq<Field>>)
    requires i <= |es|
    decreases |es| - i
  {
    if i == |es| then lists == []
    else lists != [] && ReadsAs(es[i], lists[0]) && AllRead(es, i + 1, lists[1..])
  }

  lemma ReadHere(e: string, fs: seq<Field>, rest: string)
    requires ReadsAs(e, fs)
    ensures ReadObject(e + rest) == Read(fs, rest)
    ensures SkipWs(e + rest) == e + rest
  {
    assert ReadBefore(e, rest) == Read(fs, rest);
  }

  lemma {:induction false} ReadObjectsOf(es: seq<string>, i: nat, lists: seq<seq<Field>>)
    requires i < |es| && AllRead(es, i, lists)
    ensures ReadObjects(ToAppend(es, i)) == Read(lists, "")
    ensures SkipWs(ToAppend(es, i)) == ToAppend(es, i)
    decreases |es| - i
  {
    assert lists == [lists[0]] + lists[1..];
    if i + 1 == |es| {
      LastElementReads(es, i, lists[0]);
      assert lists == [lists[0]];
    } else {
      ReadObjectsOf(es, i + 1, lists[1..]);
      ElementReads(es, i, lists[0], lists[1..]);
    }
  }

  lemma LastElementReads(es: seq<string>, i: nat, fs: seq<Field>)
    requires i + 1 == |es| && ReadsAs(es[i], fs)
    ensures ReadObjects(ToAppend(es, i)) == Read([fs], "")
    ensures SkipWs(ToAppend(es, i)) == ToAppend(es, i)
  {
    assert ToAppend(es, i) == es[i] + "]";
    ReadLast(es[i], fs);
    ReadHere(es[i], fs, "]");
  }

  lemma ElementReads(es: seq<string>, i: nat, fs: seq<Field>, lists: seq<seq<Field>>)
    requires i + 1 < |es| && ReadsAs(es[i], fs)
    requires var later := ToAppend(es, i + 1); SkipWs(later) == later && ReadObjects(later) == Read(lists, "")
    ensures ReadObjects(ToAppend(es, i)) == Read([fs] + lists, "")
    ensures SkipWs(ToAppend(es, i)) == ToAppend(es, i)
  {
    var later := ToAppend(es, i + 1);
    assert ToAppend(es, i) == es[i] + ("," + later);
    ReadNotLast(es[i], fs, later, lists);
    ReadHere(es[i], fs, "," + later);
  }

  lemma ReadLast(e: string, fs: seq<Field>)
    requires ReadsAs(e, fs)
    ensures ReadObjects(e + "]") == Read([fs], "")
  {
    ReadHere(e, fs, "]");
    assert SkipWs("]") == "]" && "]"[1..] == "";
  }

  lemma ReadNotLast(e: string, fs: seq<Field>, later: string, lists: seq<seq<Field>>)
    requires ReadsAs(e, fs) && SkipWs(later) == later && ReadObjects(later) == Read(lists, "")
    ensures ReadObjects(e + ("," + later)) == Read([fs] + lists, "")
  {
    ReadHere(e, fs, "," + later);
    assert ("," + later)[1..] == later;
    ReadObjectsStep(e + ("," + later), fs, "," + later, lists);
  }

  lemma {:induction false} ReadArrayOf(es: seq<string>, lists: seq<seq<Field>>)
    requires es != [] && AllRead(es, 0, lists)
    ensures ReadArray(ArrayText(es)) == Read(lists, "")
  {
    ReadObjectsOf(es, 0, lists);
    TextFrom(es, 0);
  }

  lemma {:induction false} AllInvoicesRead(invs: seq<Invoice>, i: nat, lists: seq<seq<Field>>)
    requires i <= |invs| && |lists| == |invs| - i && forall inv | inv in invs :: InRange(inv) && SoundSids(inv)
    requires forall k | 0 <= k < |lists| :: lists[k] == ModelFields(invs[i + k])
    ensures AllRead(Elements(invs), i, lists)
    decreases |invs| - i
  {
    if i < |invs| {
      InvoiceReadsAs(invs[i]);
      assert lists[0] == ModelFields(invs[i + 0]);
      forall k | 0 <= k < |lists| - 1 ensures lists[1..][k] == ModelFields(invs[i + 1 + k]) {
        assert lists[1..][k] == lists[k + 1];
      }
      AllInvoicesRead(invs, i + 1, lists[1..]);
    }
  }

  lemma {:induction false} InvoiceReadsAs(inv: Invoice)
    requires InRange(inv) && SoundSids(inv)
    ensures ReadsAs(JsonInvoiceModel(inv), ModelFields(inv))
  {
    ModelFieldsAre(inv);
    forall t ensures ReadBefore(JsonInvoiceModel(inv), t) == Read(ModelFields(inv), t) {
      PrintedModelReads(inv, t);
    }
    StartsWithBrace(inv);
  }

  lemma StartsWithBrace(inv: Invoice)
    ensures JsonInvoiceModel(inv) != "" && JsonInvoiceModel(inv)[0] == '{'
  {
  }

  /** The array is JSON: a reader that follows the standard finds every invoice, in order,
      with its six fields. */
  lemma {:induction false} ArrayReads(invs: seq<Invoice>) returns (lists: seq<seq<Field>>)
    requires invs != [] && forall inv | inv in invs :: InRange(inv) && SoundSids(inv)
    ensures ReadArray(ArrayText(Elements(invs))) == Read(lists, "") && |lists| == |invs|
    ensures forall i | 0 <= i < |invs| ::
              lists[i] == [Field("id", Num(Dec(invs[i].id))), Field("sid", Str(invs[i].sid)),
                           Field("user_id", Num(Dec(invs[i].userId))), Field("order_sid", Str(invs[i].orderSid)),
                           Field("product_sid", Str(invs[i].productSid)),
                           Field("created_at", Num(Dec(invs[i].createdAt)))]
  {
    lists := seq(|invs|, i requires 0 <= i < |invs| => ModelFields(invs[i]));
    AllInvoicesRead(invs, 0, lists);
    ReadArrayOf(Elements(invs), lists);
    forall i | 0 <= i < |invs|
      ensures lists[i] == [Field("id", Num(Dec(invs[i].id))), Field("sid", Str(invs[i].sid)),
                           Field("user_id", Num(Dec(invs[i].userId))), Field("order_sid", Str(invs[i].orderSid)),
                           Field("product_sid", Str(invs[i].productSid)),
                           Field("created_at", Num(Dec(invs[i].createdAt)))]
    {
      ModelFieldsAre(invs[i]);
    }
  }

  predicate NoNul(inv: Invoice) {
    NUL !in inv.sid && NUL !in inv.orderSid && NUL !in inv.productSid
  }

  lemma ModelHasNoNul(inv: Invoice)
    requires NoNul(inv)
    ensures NUL !in JsonInvoiceModel(inv)
  {
    var t6 := "\"created_at\": " + Dec(inv.createdAt) + "}";
    var t5 := "\"product_sid\": \"" + inv.productSid + "\"" + (", " + t6);
    var t4 := "\"order_sid\": \"" + inv.orderSid + "\"" + (", " + t5);
    var t3 := "\"user_id\": " + Dec(inv.userId) + (", " + t4);
    var t2 := "\"sid\": \"" + inv.sid + "\"" + (", " + t3);
    var t1 := "\"id\": " + Dec(inv.id) + (", " + t2);
    assert NUL !in t6;
    NoNulPiece("\"product_sid\": \"", inv.productSid, "\"", t6);
    NoNulPiece("\"order_sid\": \"", inv.orderSid, "\"", t5);
    NoNulPiece("\"user_id\": ", Dec(inv.userId), "", t4);
    assert "\"user_id\": " + Dec(inv.userId) + "" == "\"user_id\": " + Dec(inv.userId);
    NoNulPiece("\"sid\": \"", inv.sid, "\"", t3);
    NoNulPiece("\"id\": ", Dec(inv.id), "", t2);
    assert "\"id\": " + Dec(inv.id) + "" == "\"id\": " + Dec(inv.id);
    assert NUL !in "{" + t1;
  }

  lemma NoNulPiece(literal: string, value: string, close: string, rest: string)
    requires NUL !in literal && NUL !in value && NUL !in close && NUL !in rest
    ensures NUL !in literal + value + close + (", " + rest)
  {
  }

  /** The buffer holds the text `c`, whose first terminator is at its end. */
  ghost predicate HoldsText(buffer: array<char>, c: string)
    reads buffer
  {
    Holds(buffer, c) && NUL !in c
  }

  /** `strncat(buffer, s, strlen(s))`: finds the terminator, then copies `s` over it. */
  method Append(buffer: array<char>, ghost c: string, s: string)
    requires HoldsText(buffer, c) && NUL !in s && |c| + |s| < buffer.Length
    modifies buffer
    ensures HoldsText(buffer, c + s)
  {
    var n := 0;
    assert forall k | 0 <= k < |c| :: buffer[k] == buffer[..|c|][k] && c[k] in c;
    while buffer[n] != NUL
      invariant n <= |c|
      decreases |c| - n
    {
      n := n + 1;
    }
    assert n == |c|;
    for i := 0 to |s|
      invariant forall k | 0 <= k < |c| :: buffer[k] == c[k]
      invariant forall k | 0 <= k < i :: buffer[n + k] == s[k]
    {
      buffer[n + i] := s[i];
    }
    buffer[n + |s|] := NUL;
    assert buffer[..|c + s|] == c + s;
  }

  /** What the loop still has to append at element `i`. */
  function ToAppend(es: seq<string>, i: nat): string
    requires i <= |es|
    decreases |es| - i
  {
    if i == |es| then "]" else es[i] + ((if i + 1 < |es| then "," else "") + ToAppend(es, i + 1))
  }

  lemma {:induction false} ToAppendIsJoined(es: seq<string>, i: nat)
    requires i < |es|
    ensures ToAppend(es, i) == Joined(es[i..]) + "]"
    decreases |es| - i
  {
    if i + 1 < |es| {
      ToAppendIsJoined(es, i + 1);
      assert es[i..][1..] == es[i + 1..];
    }
  }

  lemma ToAppendNext(es: seq<string>, i: nat, done: string)
    requires i < |es|
    ensures i < |es| - 1 ==> done + ToAppend(es, i) == done + es[i] + "," + ToAppend(es, i + 1)
    ensures i == |es| - 1 ==> done + ToAppend(es, i) == done + es[i] + ToAppend(es, i + 1)
    ensures ToAppend(es, i + 1) != ""
  {
  }

  lemma {:induction false} ElementsHaveNoNul(invs: seq<Invoice>)
    requires forall inv | inv in invs :: NoNul(inv)
    ensures forall e | e in Elements(invs) :: NUL !in e
  {
    forall i | 0 <= i < |invs| ensures NUL !in Elements(invs)[i] {
      ModelHasNoNul(invs[i]);
    }
  }

  /** The array text, in the buffer that is exactly large enough for it: the text of each
      invoice stands in its place. The caller must have at least one invoice: for none the
      closing bracket's terminator would not fit. */
  method JsonInvoiceModels(invs: seq<Invoice>) returns (json: array<char>, ghost es: seq<string>)
    requires invs != [] && forall inv | inv in invs :: NoNul(inv)
    ensures |es| == |invs| && forall i | 0 <= i < |invs| :: es[i] == JsonInvoiceModel(invs[i])
    ensures fresh(json) && json.Length == BufferSize(|invs|)
    ensures HoldsText(json, ArrayText(es)) && |ArrayText(es)| == Start(es, |es|)
    ensures json[0] == '[' && forall i | 0 <= i < |es| :: Placed(json[..], es, i)
  {
    ElementsHaveNoNul(invs);
    es := Elements(invs);
    json := JoinElements(Elements(invs));
  }

  /** Element `i` stands in its place, with a comma or the closing bracket behind it. */
  predicate Placed(t: string, es: seq<string>, i: nat)
    requires i < |es|
  {
    var k := Start(es, i);
    k + |es[i]| < |t| && StandsAt(t, k, es[i]) && t[k + |es[i]|] == (if i + 1 < |es| then ',' else ']')
  }

  lemma {:induction false} AllPlaced(es: seq<string>, t: string)
    requires es != [] && ArrayText(es) <= t
    ensures |ArrayText(es)| == Start(es, |es|) && t[0] == '['
    ensures forall i | 0 <= i < |es| :: Placed(t, es, i)
  {
    ArrayAt(es, |es| - 1);
    forall i | 0 <= i < |es| ensures Placed(t, es, i) {
      ArrayAt(es, i);
      StandsInPrefix(t, ArrayText(es), Start(es, i), es[i]);
    }
  }

  /** The loop of json_invoice_models, over the printed elements. */
  method JoinElements(es: seq<string>) returns (json: array<char>)
    requires es != [] && forall e | e in es :: |e| < ELEMENT_SIZE && NUL !in e
    ensures fresh(json) && json.Length == BufferSize(|es|)
    ensures HoldsText(json, ArrayText(es)) && |ArrayText(es)| == Start(es, |es|)
    ensures json[0] == '[' && forall i | 0 <= i < |es| :: Placed(json[..], es, i)
  {
    json := AppendElements(es);
    assert json[..][..|ArrayText(es)|] == ArrayText(es);
    AllPlaced(es, json[..]);
  }

  method AppendElements(es: seq<string>) returns (json: array<char>)
    requires es != [] && forall e | e in es :: |e| < ELEMENT_SIZE && NUL !in e
    ensures fresh(json) && json.Length == BufferSize(|es|)
    ensures HoldsText(json, ArrayText(es))
  {
    JoinedLength(es);
    ToAppendIsJoined(es, 0);
    assert es[0..] == es;
    json := new char[ELEMENT_SIZE * |es| + 2](_ => NUL);
    json[0] := '[';
    ghost var done := "[";
    assert json[..1] == done;
    for i := 0 to |es|
      invariant fresh(json) && json.Length == BufferSize(|es|)
      invariant HoldsText(json, done) && done + ToAppend(es, i) == ArrayText(es)
    {
      done := AppendElement(json, done, es, i);
    }
    Append(json, done, "]");
  }

  /** The body of the loop: an element, and a comma unless it is the last one. */
  method AppendElement(json: array<char>, ghost before: string, es: seq<string>, i: nat)
    returns (ghost done: string)
    requires i < |es| && NUL !in es[i] && HoldsText(json, before) && |before + ToAppend(es, i)| < json.Length
    modifies json
    ensures HoldsText(json, done) && done + ToAppend(es, i + 1) == before + ToAppend(es, i)
  {
    ToAppendNext(es, i, before);
    assert |before| + |es[i]| < |before + ToAppend(es, i)|;
    Append(json, before, es[i]);
    done := before + es[i];
    if i < |es| - 1 {
      Append(json, done, ",");
      done := done + ",";
    }
  }

  // MARK: the table

  datatype Row = Row(sid: string, userId: nat, orderSid: string, productSid: string, createdAt: int)

  /** The rows by row id; AUTOINCREMENT never gives out an id twice. */
  datatype Table = Table(rows: map<nat, Row>, lastId: nat)

  const EMPTY := Table(map[], 0)

  predicate SidTaken(t: Table, sid: string) {
    exists id | id in t.rows :: t.rows[id].sid == sid
  }

  /** INSERT under the unique index on sid; None if the index rejects the row. */
  function Insert(t: Table, row: Row): Option<Table> {
    if SidTaken(t, row.sid) then None
    else Some(Table(t.rows[t.lastId + 1 := row], t.lastId + 1))
  }

  function Delete(t: Table, id: nat): Table {
    t.(rows := t.rows - {id})
  }

  function RowFor(inv: Invoice): Row {
    Row(inv.sid, inv.userId, inv.orderSid, inv.productSid, inv.createdAt)
  }

  /** A row as it is stored, in a table kept in the order of the row ids. */
  datatype Stored = Stored(id: nat, row: Row)

  /** The stored rows by their ids. */
  function ById(rows: seq<Stored>): map<nat, Row> {
    if rows == [] then map[]
    else
      var last := rows[|rows| - 1];
      ById(rows[..|rows| - 1])[last.id := last.row]
  }

  /** Ids increase, so each is used once; they are positive and at most `lastId`; SIDs
      are unique. */
  predicate Sorted(rows: seq<Stored>, lastId: nat) {
    && (forall i, j | 0 <= i < j < |rows| :: rows[i].id < rows[j].id && rows[i].row.sid != rows[j].row.sid)
    && (forall i | 0 <= i < |rows| :: 1 <= rows[i].id <= lastId)
  }

  lemma {:induction false} ByIdAt(rows: seq<Stored>, lastId: nat, i: nat)
    requires Sorted(rows, lastId) && i < |rows|
    ensures rows[i].id in ById(rows) && ById(rows)[rows[i].id] == rows[i].row
  {
    if i < |rows| - 1 {
      ByIdAt(rows[..|rows| - 1], lastId, i);
    }
  }

  lemma NewSid(rows: seq<Stored>, lastId: nat, sid: string)
    requires Sorted(rows, lastId) && !SidTaken(Table(ById(rows), lastId), sid)
    ensures forall i | 0 <= i < |rows| :: rows[i].row.sid != sid
  {
    forall i | 0 <= i < |rows| ensures rows[i].row.sid != sid {
      ByIdAt(rows, lastId, i);
    }
  }

  lemma {:induction false} ByIdFrom(rows: seq<Stored>, id: nat) returns (i: nat)
    requires id in ById(rows)
    ensures i < |rows| && rows[i].id == id && rows[i].row == ById(rows)[id]
  {
    i := |rows| - 1;
    if rows[i].id != id {
      i := ByIdFrom(rows[..|rows| - 1], id);
    }
  }

  /** What is left after a DELETE by id. */
  function Without(rows: seq<Stored>, id: nat): seq<Stored> {
    if rows == [] then []
    else
      var last := rows[|rows| - 1];
      Without(rows[..|rows| - 1], id) + if last.id == id then [] else [last]
  }

  lemma {:induction false} WithoutExactly(rows: seq<Stored>, id: nat)
    ensures forall r :: r in Without(rows, id) <==> r in rows && r.id != id
  {
    if rows != [] {
      WithoutExactly(rows[..|rows| - 1], id);
      assert rows == rows[..|rows| - 1] + [rows[|rows| - 1]];
    }
  }

  lemma SortedSnoc(kept: seq<Stored>, before: seq<Stored>, last: Stored, lastId: nat)
    requires Sorted(kept, lastId) && Sorted(before + [last], lastId)
    requires forall r | r in kept :: r in before
    ensures Sorted(kept + [last], lastId)
  {
    var all := before + [last];
    assert all[|before|] == last;
    forall i | 0 <= i < |kept| ensures kept[i].id < last.id && kept[i].row.sid != last.row.sid {
      assert kept[i] in before;
      var j :| 0 <= j < |before| && before[j] == kept[i];
      assert all[j] == before[j];
    }
  }

  lemma {:induction false} WithoutSorted(rows: seq<Stored>, lastId: nat, id: nat)
    requires Sorted(rows, lastId)
    ensures Sorted(Without(rows, id), lastId)
  {
    if rows != [] {
      var before := rows[..|rows| - 1];
      WithoutSorted(before, lastId, id);
      WithoutExactly(before, id);
      assert before + [rows[|before|]] == rows && Without(before, id) + [] == Without(before, id);
      SortedSnoc(Without(before, id), before, rows[|before|], lastId);
    }
  }

  lemma {:induction false} WithoutById(rows: seq<Stored>, id: nat)
    ensures ById(Without(rows, id)) == ById(rows) - {id}
  {
    if rows != [] {
      var kept, last := Without(rows[..|rows| - 1], id), rows[|rows| - 1];
      WithoutById(rows[..|rows| - 1], id);
      assert (kept + [last])[..|kept|] == kept && kept + [] == kept;
      assert ById(rows) - {id} == if last.id == id then ById(kept) else ById(kept)[last.id := last.row];
    }
  }

  /** The last row is the one that the shorter table lacks. */
  lemma {:induction false} ByIdPrefix(rows: seq<Stored>, lastId: nat)
    requires Sorted(rows, lastId) && rows != []
    ensures ById(rows[..|rows| - 1]) == ById(rows) - {rows[|rows| - 1].id}
  {
    NotById(rows[..|rows| - 1], rows[|rows| - 1].id);
  }

  lemma {:induction false} NotById(rows: seq<Stored>, id: nat)
    requires forall i | 0 <= i < |rows| :: rows[i].id != id
    ensures id !in ById(rows)
  {
    if rows != [] {
      NotById(rows[..|rows| - 1], id);
    }
  }

  /** Of two tables with the same rows by id, the last ids are the same. */
  lemma {:induction false} LastIsGreatest(a: seq<Stored>, b: seq<Stored>, lastId: nat)
    requires Sorted(a, lastId) && Sorted(b, lastId) && ById(a) == ById(b) && a != []
    ensures b != [] && b[|b| - 1].id >= a[|a| - 1].id
  {
    ByIdAt(a, lastId, |a| - 1);
    var j := ByIdFrom(b, a[|a| - 1].id);
    assert b[j].id == a[|a| - 1].id;
  }

  lemma {:induction false} SameLast(a: seq<Stored>, b: seq<Stored>, lastId: nat)
    requires Sorted(a, lastId) && Sorted(b, lastId) && ById(a) == ById(b) && a != [] && b != []
    ensures a[|a| - 1] == b[|b| - 1] && ById(a[..|a| - 1]) == ById(b[..|b| - 1])
  {
    LastIsGreatest(a, b, lastId);
    LastIsGreatest(b, a, lastId);
    ByIdAt(a, lastId, |a| - 1);
    ByIdAt(b, lastId, |b| - 1);
    ByIdPrefix(a, lastId);
    ByIdPrefix(b, lastId);
  }

  lemma SortedPrefix(rows: seq<Stored>, lastId: nat)
    requires Sorted(rows, lastId) && rows != []
    ensures Sorted(rows[..|rows| - 1], lastId)
  {
  }

  /** The rows by id determine the table. */
  lemma {:induction false} ByIdIsInjective(a: seq<Stored>, b: seq<Stored>, lastId: nat)
    requires Sorted(a, lastId) && Sorted(b, lastId) && ById(a) == ById(b)
    ensures a == b
  {
    if a != [] {
      LastIsGreatest(a, b, lastId);
    }
    if b != [] {
      LastIsGreatest(b, a, lastId);
      SameLast(a, b, lastId);
      SortedPrefix(a, lastId);
      SortedPrefix(b, lastId);
      var last := a[|a| - 1];
      ByIdIsInjective(a[..|a| - 1], b[..|b| - 1], lastId);
      assert a == a[..|a| - 1] + [last] && b == b[..|b| - 1] + [last];
    }
  }

  /** Row ids are positive, at most the counter, and no two rows share a SID. */
  predicate Consistent(t: Table) {
    && (forall id | id in t.rows :: 1 <= id <= t.lastId)
    && (forall i, j | i in t.rows && j in t.rows && i != j :: t.rows[i].sid != t.rows[j].sid)
  }

  lemma {:induction false} SortedIsConsistent(rows: seq<Stored>, lastId: nat)
    requires Sorted(rows, lastId)
    ensures Consistent(Table(ById(rows), lastId))
  {
    var m := ById(rows);
    forall id | id in m ensures 1 <= id <= lastId {
      var i := ByIdFrom(rows, id);
    }
    forall x, y | x in m && y in m && x != y ensures m[x].sid != m[y].sid {
      var i := ByIdFrom(rows, x);
      var j := ByIdFrom(rows, y);
      assert i < j || j < i;
    }
  }

  /** Inserting a row and deleting by the low byte of its id: the rows are restored exactly
      when the id fits in a byte; otherwise the new row stays, and the row that has the low
      byte as its id, if there is one, goes. */
  lemma {:induction false} UndoExactly(t: Table, row: Row)
    requires Consistent(t) && !SidTaken(t, row.sid)
    ensures var created := Insert(t, row).value;
            var undone := Delete(created, Byte(created.lastId)).rows;
            && (undone == t.rows <==> created.lastId <= 255)
            && (created.lastId > 255 ==> undone == (t.rows - {Byte(created.lastId)})[created.lastId := row])
  {
    var created := Insert(t, row).value;
    var undone := Delete(created, Byte(created.lastId)).rows;
    assert created.lastId !in t.rows;
    if created.lastId <= 255 {
      assert undone == t.rows;
    } else {
      assert created.lastId in undone;
      assert undone == (t.rows - {Byte(created.lastId)})[created.lastId := row];
    }
  }

  /** The same on the rows in their order. */
  lemma {:induction false} UndoRows(rows: seq<Stored>, last: Stored)
    requires last.id > 0 && Sorted(rows, last.id - 1) && !SidTaken(Table(ById(rows), last.id - 1), last.row.sid)
    requires Sorted(rows + [last], last.id)
    ensures var undone := Without(rows + [last], Byte(last.id));
            && (undone == rows <==> last.id <= 255)
            && (last in undone <==> last.id > 255)
            && (last.id > 255 ==>
                  forall r: Stored :: r in undone <==> (r in rows && r.id != Byte(last.id)) || r == last)
  {
    var all := rows + [last];
    var undone := Without(all, Byte(last.id));
    WithoutExactly(all, Byte(last.id));
    assert last in all && last !in rows by {
      assert forall r | r in rows :: r.id < last.id;
    }
    if last.id <= 255 {
      SortedIsConsistent(rows, last.id - 1);
      UndoExactly(Table(ById(rows), last.id - 1), last.row);
      UndoById(rows, last);
      WithoutSorted(all, last.id, last.id);
      SortedLater(rows, last.id - 1, last.id);
      ByIdIsInjective(undone, rows, last.id);
    }
  }

  lemma SortedLater(rows: seq<Stored>, lastId: nat, later: nat)
    requires Sorted(rows, lastId) && lastId <= later
    ensures Sorted(rows, later)
  {
  }

  lemma {:induction false} UndoById(rows: seq<Stored>, last: Stored)
    requires last.id > 0 && !SidTaken(Table(ById(rows), last.id - 1), last.row.sid)
    ensures var t := Table(ById(rows), last.id - 1);
            ById(Without(rows + [last], Byte(last.id)))
            == Delete(Insert(t, last.row).value, Byte(last.id)).rows
  {
    var all := rows + [last];
    assert all[..|all| - 1] == rows;
    WithoutById(all, Byte(last.id));
  }

  /** The invoices table, with the counter behind AUTOINCREMENT. */
  class InvoiceDb {
    var rows: seq<Stored>
    var lastId: nat

    predicate Valid()
      reads this
    {
      Sorted(rows, lastId)
    }

    function Value(): Table
      reads this
    {
      Table(ById(rows), lastId)
    }

    constructor ()
      ensures Valid() && Value() == EMPTY
    {
      rows, lastId := [], 0;
    }

    /** The unique index. */
    method FindSid(sid: string) returns (found: bool)
      requires Valid()
      ensures found <==> SidTaken(Value(), sid)
    {
      found := false;
      for i := 0 to |rows|
        invariant !found && forall k | 0 <= k < i :: rows[k].row.sid != sid
      {
        if rows[i].row.sid == sid {
          ByIdAt(rows, lastId, i);
          return true;
        }
      }
      forall id | id in ById(rows) ensures ById(rows)[id].sid != sid {
        var i := ByIdFrom(rows, id);
      }
    }

    /** db_create_invoice. Either the SID is taken, the code is 2 and nothing changes; or
        the row is added under an id above every id ever used, and the low byte of that id
        goes into the struct. */
    method CreateInvoice(slot: InvoiceSlot) returns (rc: nat)
      requires Valid()
      modifies this, slot
      ensures Valid()
      ensures rc == if SidTaken(old(Value()), old(slot.inv.sid)) then 2 else 0
      ensures rc == 2 ==> rows == old(rows) && lastId == old(lastId) && slot.inv == old(slot.inv)
      ensures rc == 0 ==> lastId > old(lastId) && rows == old(rows) + [Stored(lastId, RowFor(old(slot.inv)))]
      ensures rc == 0 ==>
                var inv, row := old(slot.inv), rows[|old(rows)|].row;
                && row.sid == inv.sid && row.userId == inv.userId && row.createdAt == inv.createdAt
                && row.orderSid == inv.orderSid && row.productSid == inv.productSid
      ensures rc == 0 ==> slot.inv == old(slot.inv).(id := Byte(lastId))
      ensures rc == 0 ==> Insert(old(Value()), RowFor(old(slot.inv))) == Some(Value())
    {
      var inv := slot.inv;
      var taken := FindSid(inv.sid);
      if taken {
        return 2;
      }
      NewSid(rows, lastId, inv.sid);
      lastId := lastId + 1;
      rows := rows + [Stored(lastId, RowFor(inv))];
      assert rows[..|rows| - 1] == old(rows);
      slot.inv := inv.(id := Byte(lastId));
      return 0;
    }

    /** db_delete_invoice: only the row with that id goes, the others stay in their order. */
    method DeleteInvoice(id: nat) returns (rc: nat)
      requires Valid() && id < 256
      modifies this
      ensures Valid() && rc == 0 && lastId == old(lastId)
      ensures rows == Without(old(rows), id)
      ensures forall r: Stored :: r in rows <==> r in old(rows) && r.id != id
      ensures Value() == Delete(old(Value()), id)
    {
      var kept := KeepOthers(rows, id);
      WithoutSorted(rows, lastId, id);
      WithoutById(rows, id);
      WithoutExactly(rows, id);
      rows := kept;
      return 0;
    }

    /** The scan of DELETE ... WHERE id = ... */
    static method KeepOthers(rows: seq<Stored>, id: nat) returns (kept: seq<Stored>)
      ensures kept == Without(rows, id)
    {
      kept := [];
      for i := 0 to |rows|
        invariant kept == Without(rows[..i], id)
      {
        assert rows[..i + 1][..i] == rows[..i];
        if rows[i].id != id {
          kept := kept + [rows[i]];
        }
      }
      assert rows[..|rows|] == rows;
    }

    /** Storing an invoice and taking it back by the id in its struct, which is how a
        handler of the channel undoes its insertion: the rows are restored exactly when
        the new row id fits in a byte. */
    method CreateAndUndo(slot: InvoiceSlot) returns (rc: nat)
      requires Valid()
      modifies this, slot
      ensures Valid()
      ensures rc == if SidTaken(old(Value()), old(slot.inv.sid)) then 2 else 0
      ensures rc == 2 ==> rows == old(rows)
      ensures rc == 0 ==> (rows == old(rows) <==> lastId <= 255)
      ensures rc == 0 ==> (Stored(lastId, RowFor(old(slot.inv))) in rows <==> lastId > 255)
      ensures rc == 0 && lastId > 255 ==>
                forall r: Stored :: r in rows
                  <==> (r in old(rows) && r.id != Byte(lastId)) || r == Stored(lastId, RowFor(old(slot.inv)))
    {
      ghost var before, row := rows, RowFor(slot.inv);
      rc := CreateInvoice(slot);
      if rc == 0 {
        UndoRows(before, Stored(lastId, row));
        var deleted := DeleteInvoice(slot.inv.id);
      }
    }
  }

  // MARK: histories of the table

  /** A `uint8_t` row id, all that db_delete_invoice can name. */
  type ByteId = id: nat | id < 256

  datatype Op = Create(row: Row) | Remove(id: ByteId)

  /** The table after a history of calls. */
  function AfterOps(ops: seq<Op>): Table {
    if ops == [] then EMPTY
    else
      var t := AfterOps(ops[..|ops| - 1]);
      match ops[|ops| - 1]
      case Create(row) => (match Insert(t, row) case None => t case Some(t') => t')
      case Remove(id) => Delete(t, id)
  }

  lemma {:induction false} HistoryIsConsistent(ops: seq<Op>)
    ensures Consistent(AfterOps(ops))
  {
    if ops != [] {
      HistoryIsConsistent(ops[..|ops| - 1]);
    }
  }

  /** The calls of a history, made one after the other, lead to that table. */
  method Replay(ops: seq<Op>) returns (db: InvoiceDb)
    ensures fresh(db) && db.Valid() && db.Value() == AfterOps(ops)
  {
    db := new InvoiceDb();
    for i := 0 to |ops|
      invariant fresh(db) && db.Valid() && db.Value() == AfterOps(ops[..i])
    {
      assert ops[..i + 1][..i] == ops[..i];
      match ops[i]
      case Create(row) =>
        var inv := Invoice(0, row.sid, row.userId, row.orderSid, row.productSid, row.createdAt, "", "", "", 0, 0, 0);
        var slot := new InvoiceSlot(inv);
        var rc := db.CreateInvoice(slot);
        assert RowFor(inv) == row;
      case Remove(id) =>
        var rc := db.DeleteInvoice(id);
    }
    assert ops[..|ops|] == ops;
  }

  /** After any history, creating an invoice and deleting it by the id stored in its struct
      restores the rows exactly when the new row id fits in a byte; otherwise the new row
      stays. */
  lemma {:induction false} CreateThenDelete(ops: seq<Op>, inv: Invoice)
    requires !SidTaken(AfterOps(ops), inv.sid)
    ensures var t := AfterOps(ops);
            var created := Insert(t, RowFor(inv)).value;
            var undone := Delete(created, Byte(created.lastId));
            && (undone.rows == t.rows <==> created.lastId <= 255)
            && (created.lastId in undone.rows <==> created.lastId > 255)
  {
    HistoryIsConsistent(ops);
    UndoExactly(AfterOps(ops), RowFor(inv));
  }

  /** Past 255 rows the undo removes the invoice, if there is one, whose row id is the low
      byte of the new one, and no other. */
  lemma {:induction false} UndoMayHitAnotherRow(ops: seq<Op>, inv: Invoice)
    requires !SidTaken(AfterOps(ops), inv.sid) && AfterOps(ops).lastId >= 255
    ensures var t := AfterOps(ops);
            var created := Insert(t, RowFor(inv)).value;
            var b, undone := Byte(created.lastId), Delete(created, Byte(created.lastId)).rows;
            && undone == (t.rows - {b})[t.lastId + 1 := RowFor(inv)]
            && ((exists id :: id in t.rows && id !in undone) <==> b in t.rows)
  {
    HistoryIsConsistent(ops);
    var t := AfterOps(ops);
    UndoExactly(t, RowFor(inv));
    if Byte(t.lastId + 1) in t.rows {
      assert Byte(t.lastId + 1) !in Delete(Insert(t, RowFor(inv)).value, Byte(t.lastId + 1)).rows;
    }
  }
}
