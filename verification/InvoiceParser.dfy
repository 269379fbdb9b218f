/** invoice-service/redis_calls.c: `parse_redis_invoice_gen`, which reads nine values out
    of a published payload, narrows the numbers to bytes and rejects empty ones. */
module InvoiceParser {
  import opened InvoicePayload
  import opened JsonReader
  import opened JsonScanner
  import opened JsonText
  import opened Numbers
  import opened Wrappers

  /** The C struct InvoiceModel; the numbers are `uint8_t`. */
  datatype Invoice = Invoice(
    id: nat, sid: string, userId: nat, orderSid: string, productSid: string, createdAt: int,
    userName: string, userEmail: string, productName: string,
    pricePerItem: nat, quantity: nat, total: nat)

  /** What `InvoiceModel *inv` points to. */
  class InvoiceSlot {
    var inv: Invoice

    constructor (inv: Invoice)
      ensures this.inv == inv
    {
      this.inv := inv;
    }
  }

  // MARK: specification

  /** The keys, in the order in which they are read, and the sizes of the local buffers. */
  function StepKey(i: nat): string
    requires i < 9
  {
    match i
    case 0 => "user_id"
    case 1 => "order_sid"
    case 2 => "product_sid"
    case 3 => "user_name"
    case 4 => "user_email"
    case 5 => "product_name"
    case 6 => "product_price"
    case 7 => "quantity"
    case _ => "total"
  }

  predicate Numeric(i: nat) {
    i == 0 || i >= 6
  }

  function Capacity(i: nat): nat {
    if Numeric(i) then 10 else 100
  }

  /** The text found for a key, or the empty string of the zeroed buffer. */
  function TextAt(t: string, key: string): string {
    match Extract(t, key) case None => "" case Some(v) => v
  }

  /** The local buffer after step `i`: the extracted text, or empty if the key was missed. */
  function Local(t: string, i: nat): string
    requires i < 9
  {
    TextAt(t, StepKey(i))
  }

  predicate Accepted(t: string, i: nat)
    requires i < 9
  {
    if Numeric(i) then Byte(Atoi(Local(t, i))) > 0 else Local(t, i) != ""
  }

  function SetField(inv: Invoice, i: nat, v: string): Invoice
    requires i < 9
  {
    match i
    case 0 => inv.(userId := Byte(Atoi(v)))
    case 1 => inv.(orderSid := v)
    case 2 => inv.(productSid := v)
    case 3 => inv.(userName := v)
    case 4 => inv.(userEmail := v)
    case 5 => inv.(productName := v)
    case 6 => inv.(pricePerItem := Byte(Atoi(v)))
    case 7 => inv.(quantity := Byte(Atoi(v)))
    case _ => inv.(total := Byte(Atoi(v)))
  }

  /** The steps from `i` on: the return code, and the struct filled so far. A rejected
      number has been stored, a rejected string has not. */
  function ParseFrom(inv: Invoice, t: string, i: nat): (nat, Invoice)
    requires i <= 9
    decreases 9 - i
  {
    if i == 9 then (0, inv)
    else
      var stored := SetField(inv, i, Local(t, i));
      if Accepted(t, i) then ParseFrom(stored, t, i + 1)
      else (i + 1, if Numeric(i) then stored else inv)
  }

  /** Every buffer that is reached from step `i` on is large enough; the C code relies on it. */
  predicate BuffersSuffice(t: string, i: nat)
    requires i <= 9
    decreases 9 - i
  {
    i < 9 ==>
      && Written(t, StepKey(i)) <= Capacity(i)
      && (Accepted(t, i) ==> BuffersSuffice(t, i + 1))
  }

  // MARK: the implementation

  lemma {:induction false} ScannedFromLocals(t: string)
    ensures forall c | c in SkipSpace(t) :: c in t
    ensures forall c | c in CopyString(t) :: c in t
    ensures forall c | c in CopyScalar(t) :: c in t
    ensures forall c | c in TrimRight(t) :: c in t
    decreases |t|
  {
    if t != "" {
      ScannedFromLocals(t[1..]);
      ScannedFromLocals(t[..|t| - 1]);
      if |t| > 1 {
        ScannedFromLocals(t[2..]);
      }
    }
  }

  lemma {:induction false} FoundFromLocals(t: string, p: string)
    ensures AfterFirst(t, p).Some? ==> forall c | c in AfterFirst(t, p).value :: c in t
  {
    if !StartsWith(t, p) && t != "" {
      FoundFromLocals(t[1..], p);
    }
  }

  lemma {:induction false} StartFromLocals(t: string, key: string)
    ensures ValueStart(t, key).Some? ==> forall c | c in ValueStart(t, key).value :: c in t
  {
    FoundFromLocals(t, Pattern(key));
    var rest := AfterFirst(t, Pattern(key));
    if rest.Some? {
      ScannedFromLocals(rest.value);
      var colon := SkipSpace(rest.value);
      if colon != "" {
        ScannedFromLocals(colon[1..]);
      }
    }
  }

  lemma {:induction false} ValueFromLocals(v: string)
    ensures forall c | c in ScanValue(v) :: c in v
  {
    ScannedFromLocals(v);
    ScannedFromLocals(CopyScalar(v));
    if v != "" {
      ScannedFromLocals(v[1..]);
    }
  }

  lemma {:induction false} ExtractedFromLocals(t: string, key: string)
    ensures Extract(t, key).Some? ==> forall c | c in Extract(t, key).value :: c in t
  {
    StartFromLocals(t, key);
    if ValueStart(t, key).Some? {
      ValueFromLocals(ValueStart(t, key).value);
    }
  }

  /** `char buffer[n] = {0}; get_json_value(data, key, buffer)`, and the string it leaves. */
  method ReadLocal(data: CString, key: string, capacity: nat) returns (s: string)
    requires NUL !in key && capacity > 0 && Written(Text(data), key) <= capacity
    ensures s == TextAt(Text(data), key)
  {
    var buffer := new char[capacity](_ => NUL);
    var rc := GetJsonValue(data, key, buffer);
    ghost var v := TextAt(Text(data), key);
    ExtractedFromLocals(Text(data), key);
    if rc != 0 {
      assert buffer[0] == NUL && buffer[..0] == "";
    }
    s := StrDup(buffer, v);
  }

  /** `strdup`: the bytes up to the first terminator. */
  method StrDup(buffer: array<char>, ghost v: string) returns (s: string)
    requires Holds(buffer, v) && NUL !in v
    ensures s == v
  {
    assert forall k | 0 <= k < |v| :: v[k] in v && buffer[k] == buffer[..|v|][k] && buffer[k] != NUL;
    var n := 0;
    while buffer[n] != NUL
      invariant n <= |v|
      decreases |v| - n
    {
      n := n + 1;
    }
    s := buffer[..n];
  }

  /** The first three blocks. */
  method ParseIds(data: CString, slot: InvoiceSlot) returns (code: nat)
    requires BuffersSuffice(Text(data), 0)
    modifies slot
    ensures code == 0 ==> BuffersSuffice(Text(data), 3)
    ensures ParseFrom(old(slot.inv), Text(data), 0)
            == if code == 0 then ParseFrom(slot.inv, Text(data), 3) else (code, slot.inv)
  {
    var userId := ReadNumber(data, 0);
    slot.inv := slot.inv.(userId := userId);
    if slot.inv.userId <= 0 {
      return 1;
    }
    var orderSid := ReadStep(data, 1);
    if |orderSid| == 0 {
      return 2;
    }
    slot.inv := slot.inv.(orderSid := orderSid);
    var productSid := ReadStep(data, 2);
    if |productSid| == 0 {
      return 3;
    }
    slot.inv := slot.inv.(productSid := productSid);
    return 0;
  }

  /** The three names for the PDF. */
  method ParseNames(data: CString, slot: InvoiceSlot) returns (code: nat)
    requires BuffersSuffice(Text(data), 3)
    modifies slot
    ensures code == 0 ==> BuffersSuffice(Text(data), 6)
    ensures ParseFrom(old(slot.inv), Text(data), 3)
            == if code == 0 then ParseFrom(slot.inv, Text(data), 6) else (code, slot.inv)
  {
    var userName := ReadStep(data, 3);
    if |userName| == 0 {
      return 4;
    }
    slot.inv := slot.inv.(userName := userName);
    var userEmail := ReadStep(data, 4);
    if |userEmail| == 0 {
      return 5;
    }
    slot.inv := slot.inv.(userEmail := userEmail);
    var productName := ReadStep(data, 5);
    if |productName| == 0 {
      return 6;
    }
    slot.inv := slot.inv.(productName := productName);
    return 0;
  }

  /** The price and the quantity. */
  method ParseAmounts(data: CString, slot: InvoiceSlot) returns (code: nat)
    requires BuffersSuffice(Text(data), 6)
    modifies slot
    ensures code == 0 ==> BuffersSuffice(Text(data), 8)
    ensures ParseFrom(old(slot.inv), Text(data), 6)
            == if code == 0 then ParseFrom(slot.inv, Text(data), 8) else (code, slot.inv)
  {
    code := ParsePrice(data, slot);
    if code == 0 {
      code := ParseQuantity(data, slot);
    }
  }

  method ParsePrice(data: CString, slot: InvoiceSlot) returns (code: nat)
    requires BuffersSuffice(Text(data), 6)
    modifies slot
    ensures code == 0 ==> BuffersSuffice(Text(data), 7)
    ensures ParseFrom(old(slot.inv), Text(data), 6)
            == if code == 0 then ParseFrom(slot.inv, Text(data), 7) else (code, slot.inv)
  {
    var productPrice := ReadNumber(data, 6);
    slot.inv := slot.inv.(pricePerItem := productPrice);
    if slot.inv.pricePerItem <= 0 {
      return 7;
    }
    return 0;
  }

  method ParseQuantity(data: CString, slot: InvoiceSlot) returns (code: nat)
    requires BuffersSuffice(Text(data), 7)
    modifies slot
    ensures code == 0 ==> BuffersSuffice(Text(data), 8)
    ensures ParseFrom(old(slot.inv), Text(data), 7)
            == if code == 0 then ParseFrom(slot.inv, Text(data), 8) else (code, slot.inv)
  {
    var quantity := ReadNumber(data, 7);
    slot.inv := slot.inv.(quantity := quantity);
    if slot.inv.quantity <= 0 {
      return 8;
    }
    return 0;
  }

  /** The last block. */
  method ParseTotal(data: CString, slot: InvoiceSlot) returns (code: nat)
    requires BuffersSuffice(Text(data), 8)
    modifies slot
    ensures ParseFrom(old(slot.inv), Text(data), 8) == (code, slot.inv)
  {
    var total := ReadNumber(data, 8);
    slot.inv := slot.inv.(total := total);
    if slot.inv.total <= 0 {
      return 9;
    }
    return 0;
  }

  method ParseRedisInvoiceGen(data: CString, slot: InvoiceSlot) returns (code: nat)
    requires BuffersSuffice(Text(data), 0)
    modifies slot
    ensures (code, slot.inv) == ParseFrom(old(slot.inv), Text(data), 0)
  {
    code := ParseIds(data, slot);
    if code == 0 {
      code := ParseNames(data, slot);
    }
    if code == 0 {
      code := ParseAmounts(data, slot);
    }
    if code == 0 {
      code := ParseTotal(data, slot);
    }
  }

  /** `atoi` of the local buffer, stored in a byte. */
  method ReadNumber(data: CString, i: nat) returns (n: nat)
    requires i < 9 && Numeric(i) && Written(Text(data), StepKey(i)) <= Capacity(i)
    ensures n == Byte(Atoi(Local(Text(data), i))) && (n > 0 <==> Accepted(Text(data), i))
  {
    var local := ReadStep(data, i);
    n := Byte(Atoi(local));
  }

  lemma StepKeyHasNoNul(i: nat)
    requires i < 9
    ensures NUL !in StepKey(i)
  {
  }

  method ReadStep(data: CString, i: nat) returns (s: string)
    requires i < 9 && Written(Text(data), StepKey(i)) <= Capacity(i)
    ensures s == Local(Text(data), i)
  {
    StepKeyHasNoNul(i);
    s := ReadLocal(data, StepKey(i), Capacity(i));
  }

  // MARK: what an accepted invoice means

  /** The struct with all nine fields taken from the text. */
  function AllSet(inv: Invoice, t: string): Invoice {
    inv.(userId := Byte(Atoi(Local(t, 0))),
         orderSid := Local(t, 1), productSid := Local(t, 2),
         userName := Local(t, 3), userEmail := Local(t, 4), productName := Local(t, 5),
         pricePerItem := Byte(Atoi(Local(t, 6))), quantity := Byte(Atoi(Local(t, 7))),
         total := Byte(Atoi(Local(t, 8))))
  }

  /** Which steps accept. */
  function Verdicts(t: string): (v: seq<bool>)
    ensures |v| == 9
  {
    seq(9, i requires 0 <= i < 9 => Accepted(t, i))
  }

  /** The first step from `i` on that rejects, or the number of steps. */
  function FirstRejected(verdicts: seq<bool>, i: nat): (r: nat)
    requires i <= |verdicts|
    ensures i <= r <= |verdicts| && (r < |verdicts| ==> !verdicts[r])
    ensures forall j | i <= j < r :: verdicts[j]
    decreases |verdicts| - i
  {
    if i < |verdicts| && verdicts[i] then FirstRejected(verdicts, i + 1) else i
  }

  /** The return code is 0 when all values are accepted, and otherwise one more than the
      index of the first rejected one. */
  lemma {:induction false} CodeIsFirstRejected(inv: Invoice, t: string, i: nat)
    requires i <= 9
    ensures ParseFrom(inv, t, i).0
            == if FirstRejected(Verdicts(t), i) == 9 then 0 else FirstRejected(Verdicts(t), i) + 1
    decreases 9 - i
  {
    if i < 9 && Accepted(t, i) {
      CodeIsFirstRejected(SetField(inv, i, Local(t, i)), t, i + 1);
    }
  }

  lemma {:induction false} CodeIsZero(inv: Invoice, t: string)
    ensures ParseFrom(inv, t, 0).0 == 0 <==> forall i | 0 <= i < 9 :: Accepted(t, i)
  {
    CodeIsFirstRejected(inv, t, 0);
    assert forall i | 0 <= i < 9 :: Verdicts(t)[i] == Accepted(t, i);
  }

  /** The struct after the steps from `i` up to `j`, when all of them accept. */
  function Filled(inv: Invoice, t: string, i: nat, j: nat): Invoice
    requires i <= j <= 9
    decreases j - i
  {
    if i == j then inv else Filled(SetField(inv, i, Local(t, i)), t, i + 1, j)
  }

  lemma {:induction false} AcceptedFills(inv: Invoice, t: string, i: nat)
    requires i <= 9 && forall k | i <= k < 9 :: Accepted(t, k)
    ensures ParseFrom(inv, t, i) == (0, Filled(inv, t, i, 9))
    decreases 9 - i
  {
    if i < 9 {
      AcceptedFills(SetField(inv, i, Local(t, i)), t, i + 1);
    }
  }

  lemma {:induction false} FilledFrom(inv: Invoice, t: string, i: nat, j: nat, k: nat)
    requires i <= j <= k <= 9
    ensures Filled(inv, t, i, k) == Filled(Filled(inv, t, i, j), t, j, k)
    decreases j - i
  {
    if i < j {
      FilledFrom(SetField(inv, i, Local(t, i)), t, i + 1, j, k);
    }
  }

  lemma ThreeFilled(inv: Invoice, t: string, i: nat)
    requires i <= 6
    ensures Filled(inv, t, i, i + 3)
            == SetField(SetField(SetField(inv, i, Local(t, i)), i + 1, Local(t, i + 1)), i + 2, Local(t, i + 2))
  {
    var inv1 := SetField(inv, i, Local(t, i));
    var inv2 := SetField(inv1, i + 1, Local(t, i + 1));
    var inv3 := SetField(inv2, i + 2, Local(t, i + 2));
    assert Filled(inv, t, i, i + 3) == Filled(inv1, t, i + 1, i + 3);
    assert Filled(inv1, t, i + 1, i + 3) == Filled(inv2, t, i + 2, i + 3);
    assert Filled(inv2, t, i + 2, i + 3) == Filled(inv3, t, i + 3, i + 3);
  }

  lemma {:induction false} AcceptedSetsAll(inv: Invoice, t: string)
    requires ParseFrom(inv, t, 0).0 == 0
    ensures ParseFrom(inv, t, 0).1 == AllSet(inv, t)
  {
    CodeIsZero(inv, t);
    AcceptedFills(inv, t, 0);
    var third := Filled(inv, t, 0, 3);
    var sixth := Filled(third, t, 3, 6);
    FilledFrom(inv, t, 0, 3, 9);
    FilledFrom(third, t, 3, 6, 9);
    ThreeFilled(inv, t, 0);
    ThreeFilled(third, t, 3);
    ThreeFilled(sixth, t, 6);
  }

  // MARK: the parser in one piece

  function ByteAt(t: string, key: string): nat {
    Byte(Atoi(TextAt(t, key)))
  }

  /** The return code says which value was rejected first: a number whose low byte is zero,
      or an empty string. */
  lemma {:induction false} CodeMeans(inv: Invoice, t: string)
    ensures ParseFrom(inv, t, 0).0
            == if ByteAt(t, "user_id") == 0 then 1
               else if TextAt(t, "order_sid") == "" then 2
               else if TextAt(t, "product_sid") == "" then 3
               else if TextAt(t, "user_name") == "" then 4
               else if TextAt(t, "user_email") == "" then 5
               else if TextAt(t, "product_name") == "" then 6
               else if ByteAt(t, "product_price") == 0 then 7
               else if ByteAt(t, "quantity") == 0 then 8
               else if ByteAt(t, "total") == 0 then 9
               else 0
  {
    CodeIsFirstRejected(inv, t, 0);
    VerdictsMean(t);
    FirstOfNine(Verdicts(t));
  }

  lemma LocalMeans(t: string, i: nat, key: string)
    requires i < 9 && key == StepKey(i)
    ensures Local(t, i) == TextAt(t, key)
  {
  }

  /** What the local buffers hold, by key. */
  lemma LocalsMean(t: string)
    ensures Local(t, 0) == TextAt(t, "user_id") && Local(t, 1) == TextAt(t, "order_sid")
    ensures Local(t, 2) == TextAt(t, "product_sid") && Local(t, 3) == TextAt(t, "user_name")
    ensures Local(t, 4) == TextAt(t, "user_email") && Local(t, 5) == TextAt(t, "product_name")
    ensures Local(t, 6) == TextAt(t, "product_price") && Local(t, 7) == TextAt(t, "quantity")
    ensures Local(t, 8) == TextAt(t, "total")
  {
    LocalMeans(t, 0, "user_id");
    LocalMeans(t, 1, "order_sid");
    LocalMeans(t, 2, "product_sid");
    LocalMeans(t, 3, "user_name");
    LocalMeans(t, 4, "user_email");
    LocalMeans(t, 5, "product_name");
    LocalMeans(t, 6, "product_price");
    LocalMeans(t, 7, "quantity");
    LocalMeans(t, 8, "total");
  }

  lemma VerdictsMean(t: string)
    ensures var v := Verdicts(t);
            && (v[0] <==> ByteAt(t, "user_id") != 0) && (v[1] <==> TextAt(t, "order_sid") != "")
            && (v[2] <==> TextAt(t, "product_sid") != "") && (v[3] <==> TextAt(t, "user_name") != "")
            && (v[4] <==> TextAt(t, "user_email") != "") && (v[5] <==> TextAt(t, "product_name") != "")
            && (v[6] <==> ByteAt(t, "product_price") != 0) && (v[7] <==> ByteAt(t, "quantity") != 0)
            && (v[8] <==> ByteAt(t, "total") != 0)
  {
    LocalsMean(t);
    assert forall i | 0 <= i < 9 :: Verdicts(t)[i] == Accepted(t, i);
  }

  lemma FirstOfNine(v: seq<bool>)
    requires |v| == 9
    ensures FirstRejected(v, 0)
            == if !v[0] then 0 else if !v[1] then 1 else if !v[2] then 2 else if !v[3] then 3
               else if !v[4] then 4 else if !v[5] then 5 else if !v[6] then 6 else if !v[7] then 7
               else if !v[8] then 8 else 9
  {
  }

  /** The struct after the steps before `c`; step `c` has rejected a value if `c < 9`. */
  lemma {:induction false} ParsedStruct(inv: Invoice, t: string, i: nat, c: nat)
    requires i <= c <= 9 && (forall k | i <= k < c :: Accepted(t, k)) && (c < 9 ==> !Accepted(t, c))
    ensures ParseFrom(inv, t, i).1
            == if c < 9 && Numeric(c) then SetField(Filled(inv, t, i, c), c, Local(t, c)) else Filled(inv, t, i, c)
    decreases c - i
  {
    if i < c {
      ParsedStruct(SetField(inv, i, Local(t, i)), t, i + 1, c);
    }
  }

  /** `out` has the first `n` fields from the local buffers and the others from `inv`. */
  predicate FromLocals(out: Invoice, inv: Invoice, t: string, n: nat) {
    && out.userId == (if n > 0 then Byte(Atoi(Local(t, 0))) else inv.userId)
    && out.orderSid == (if n > 1 then Local(t, 1) else inv.orderSid)
    && out.productSid == (if n > 2 then Local(t, 2) else inv.productSid)
    && out.userName == (if n > 3 then Local(t, 3) else inv.userName)
    && out.userEmail == (if n > 4 then Local(t, 4) else inv.userEmail)
    && out.productName == (if n > 5 then Local(t, 5) else inv.productName)
    && out.pricePerItem == (if n > 6 then Byte(Atoi(Local(t, 6))) else inv.pricePerItem)
    && out.quantity == (if n > 7 then Byte(Atoi(Local(t, 7))) else inv.quantity)
    && out.total == (if n > 8 then Byte(Atoi(Local(t, 8))) else inv.total)
    && out.id == inv.id && out.sid == inv.sid && out.createdAt == inv.createdAt
  }

  lemma NextFromLocals(out: Invoice, inv: Invoice, t: string, i: nat)
    requires i < 9 && FromLocals(out, inv, t, i)
    ensures FromLocals(SetField(out, i, Local(t, i)), inv, t, i + 1)
  {
    var v := Local(t, i);
    match i
    case 0 => assert SetField(out, 0, v) == out.(userId := Byte(Atoi(v)));
    case 1 => assert SetField(out, 1, v) == out.(orderSid := v);
    case 2 => assert SetField(out, 2, v) == out.(productSid := v);
    case 3 => assert SetField(out, 3, v) == out.(userName := v);
    case 4 => assert SetField(out, 4, v) == out.(userEmail := v);
    case 5 => assert SetField(out, 5, v) == out.(productName := v);
    case 6 => assert SetField(out, 6, v) == out.(pricePerItem := Byte(Atoi(v)));
    case 7 => assert SetField(out, 7, v) == out.(quantity := Byte(Atoi(v)));
    case _ => assert SetField(out, i, v) == out.(total := Byte(Atoi(v)));
  }

  lemma {:induction false} FilledFields(inv: Invoice, t: string, c: nat)
    requires c <= 9
    ensures FromLocals(Filled(inv, t, 0, c), inv, t, c)
    decreases c
  {
    if c > 0 {
      FilledFields(inv, t, c - 1);
      FilledFrom(inv, t, 0, c - 1, c);
      OneFilled(Filled(inv, t, 0, c - 1), t, c - 1);
      NextFromLocals(Filled(inv, t, 0, c - 1), inv, t, c - 1);
    }
  }

  /** How many fields have been stored: a rejected number has been, a rejected string not. */
  function StoredFields(code: nat): nat {
    if code == 0 then 9 else if code == 1 || code >= 7 then code else code - 1
  }

  lemma {:induction false} ParsedFields(inv: Invoice, t: string)
    ensures FromLocals(ParseFrom(inv, t, 0).1, inv, t, StoredFields(ParseFrom(inv, t, 0).0))
  {
    var c := FirstRejected(Verdicts(t), 0);
    CodeIsFirstRejected(inv, t, 0);
    assert forall k | 0 <= k < 9 :: Verdicts(t)[k] == Accepted(t, k);
    ParsedStruct(inv, t, 0, c);
    FilledFields(inv, t, c);
    if c < 9 {
      NextFromLocals(Filled(inv, t, 0, c), inv, t, c);
    }
  }

  /** Numbers are stored before they are judged, strings afterwards; what comes after the
      rejected value, and the other fields, keep what they had. */
  lemma {:induction false} StructMeans(inv: Invoice, t: string)
    ensures var (code, out) := ParseFrom(inv, t, 0);
            var n := if code == 0 then 10 else code;
            && out.userId == ByteAt(t, "user_id")
            && out.orderSid == (if n > 2 then TextAt(t, "order_sid") else inv.orderSid)
            && out.productSid == (if n > 3 then TextAt(t, "product_sid") else inv.productSid)
            && out.userName == (if n > 4 then TextAt(t, "user_name") else inv.userName)
            && out.userEmail == (if n > 5 then TextAt(t, "user_email") else inv.userEmail)
            && out.productName == (if n > 6 then TextAt(t, "product_name") else inv.productName)
            && out.pricePerItem == (if n >= 7 then ByteAt(t, "product_price") else inv.pricePerItem)
            && out.quantity == (if n >= 8 then ByteAt(t, "quantity") else inv.quantity)
            && out.total == (if n >= 9 then ByteAt(t, "total") else inv.total)
            && out.id == inv.id && out.sid == inv.sid && out.createdAt == inv.createdAt
  {
    ParsedFields(inv, t);
    LocalsMean(t);
  }

  lemma OneFilled(inv: Invoice, t: string, i: nat)
    requires i < 9
    ensures Filled(inv, t, i, i + 1) == SetField(inv, i, Local(t, i))
  {
    assert Filled(SetField(inv, i, Local(t, i)), t, i + 1, i + 1) == SetField(inv, i, Local(t, i));
  }

  // MARK: one value of a payload

  /** Where step `i` finds its key in the payload. */
  function PayloadIndex(i: nat): (p: nat)
    requires i < 9
    ensures p < 10 && PayloadKey(p) == StepKey(i)
  {
    match i
    case 0 => 8
    case 1 => 1
    case 2 => 4
    case 3 => 9
    case 4 => 7
    case 5 => 2
    case 6 => 3
    case 7 => 5
    case _ => 6
  }

  /** No string value printed before the key of step `i` clashes with it. */
  predicate Findable(m: InvoiceMsg, i: nat)
    requires i < 9
  {
    forall j | 0 <= j < PayloadIndex(i) :: !Hides(m, j, StepKey(i))
  }

  predicate NothingHidden(m: InvoiceMsg) {
    forall i | 0 <= i < 9 :: Findable(m, i)
  }

  function StepText(m: InvoiceMsg, i: nat): string
    requires i < 9
  {
    Raw(PayloadValue(m, PayloadIndex(i)))
  }

  /** The value of step `i` and its terminator fit in the local buffer. */
  predicate Fits(m: InvoiceMsg, i: nat)
    requires i < 9
  {
    |StepText(m, i)| < Capacity(i)
  }

  /** Numbers of at most 9 characters, strings of at most 99 escaped bytes. */
  predicate FitsLocals(m: InvoiceMsg) {
    forall i | 0 <= i < 9 :: Fits(m, i)
  }

  lemma {:induction false} PayloadStep(m: InvoiceMsg, i: nat)
    requires i < 9
    ensures Written(PayloadText(m), StepKey(i)) <= Capacity(i) <==> !Findable(m, i) || Fits(m, i)
    ensures Local(PayloadText(m), i) == if Findable(m, i) then StepText(m, i) else ""
  {
    PayloadRoundTrip(m, PayloadIndex(i));
  }

  /** After step `i` on a published payload the local buffer holds the payload's value, or
      nothing if the key is hidden, provided that it is not overrun; it is overrun exactly
      by a value that is found and does not fit. */
  lemma {:induction false} LocalOfPayload(m: InvoiceMsg, i: nat)
    requires i < 9
    ensures Written(PayloadText(m), StepKey(i)) > Capacity(i) <==> Findable(m, i) && !Fits(m, i)
    ensures Written(PayloadText(m), StepKey(i)) <= Capacity(i) ==>
              Local(PayloadText(m), i) == if Findable(m, i) then StepText(m, i) else ""
  {
    PayloadStep(m, i);
  }

  /** What step `i` demands of its value. */
  predicate ValueAccepted(m: InvoiceMsg, i: nat)
    requires i < 9
  {
    match PayloadString(m, PayloadIndex(i))
    case Some(s) => s != ""
    case None => Byte(PayloadNumber(m, PayloadIndex(i))) > 0
  }

  lemma StepShape(m: InvoiceMsg, i: nat)
    requires i < 9
    ensures Numeric(i) <==> PayloadString(m, PayloadIndex(i)).None?
  {
  }

  lemma {:induction false} AcceptedOfPayload(m: InvoiceMsg, i: nat)
    requires i < 9
    ensures Accepted(PayloadText(m), i) <==> Findable(m, i) && ValueAccepted(m, i)
  {
    PayloadStep(m, i);
    StepShape(m, i);
    if Numeric(i) {
      AtoiOfDec(PayloadNumber(m, PayloadIndex(i)));
      AtoiOfNone("", "", "");
      assert "" + ("" + "") == "";
    }
  }

  // MARK: buffers

  /** Step `i` does not overrun its local buffer. */
  predicate Held(m: InvoiceMsg, i: nat)
    requires i < 9
  {
    Findable(m, i) ==> Fits(m, i)
  }

  /** The parser goes on after step `i`. */
  predicate Passed(m: InvoiceMsg, i: nat)
    requires i < 9
  {
    Findable(m, i) && ValueAccepted(m, i)
  }

  lemma {:induction false} SafeStep(m: InvoiceMsg, i: nat)
    requires i < 9
    ensures BuffersSuffice(PayloadText(m), i)
            <==> Held(m, i) && (Passed(m, i) ==> BuffersSuffice(PayloadText(m), i + 1))
  {
    PayloadStep(m, i);
    AcceptedOfPayload(m, i);
  }

  function PassedSteps(m: InvoiceMsg): (v: seq<bool>)
    ensures |v| == 9
  {
    seq(9, i requires 0 <= i < 9 => Passed(m, i))
  }

  function HeldSteps(m: InvoiceMsg): (v: seq<bool>)
    ensures |v| == 9
  {
    seq(9, i requires 0 <= i < 9 => Held(m, i))
  }

  /** From step `i` on, every step that is reached holds. */
  predicate ReachedHold(passed: seq<bool>, held: seq<bool>, i: nat)
    requires i <= |passed| == |held|
    decreases |passed| - i
  {
    i < |passed| ==> held[i] && (passed[i] ==> ReachedHold(passed, held, i + 1))
  }

  lemma {:induction false} ReachedHoldExactly(passed: seq<bool>, held: seq<bool>, i: nat)
    requires i <= |passed| == |held|
    ensures ReachedHold(passed, held, i)
            <==> forall k | i <= k < |held| && k <= FirstRejected(passed, i) :: held[k]
    decreases |passed| - i
  {
    if i < |passed| && passed[i] {
      ReachedHoldExactly(passed, held, i + 1);
    }
  }

  lemma {:induction false} SafeIsReachedHold(m: InvoiceMsg, i: nat)
    requires i <= 9
    ensures BuffersSuffice(PayloadText(m), i) <==> ReachedHold(PassedSteps(m), HeldSteps(m), i)
    decreases 9 - i
  {
    if i < 9 {
      SafeStep(m, i);
      SafeIsReachedHold(m, i + 1);
    }
  }

  /** The parser stays within its local buffers exactly when every value up to the first
      one it rejects is hidden or fits. */
  lemma {:induction false} SafeExactly(m: InvoiceMsg, i: nat)
    requires i <= 9
    ensures BuffersSuffice(PayloadText(m), i)
            <==> forall k | i <= k < 9 && k <= FirstRejected(PassedSteps(m), i) :: HeldSteps(m)[k]
  {
    SafeIsReachedHold(m, i);
    ReachedHoldExactly(PassedSteps(m), HeldSteps(m), i);
  }

  /** A payload whose values fit overruns no local buffer. */
  lemma {:induction false} PayloadFitsBuffers(m: InvoiceMsg, i: nat)
    requires i <= 9 && FitsLocals(m)
    ensures BuffersSuffice(PayloadText(m), i)
  {
    SafeExactly(m, i);
    assert forall k | 0 <= k < 9 :: HeldSteps(m)[k] == Held(m, k);
  }

  /** For a number, fitting means at most nine digits, or eight and a sign. */
  lemma {:induction false} NumberFits(m: InvoiceMsg, i: nat)
    requires i < 9 && Numeric(i)
    ensures Fits(m, i) <==> (StepShape(m, i); -1_0000_0000 < PayloadNumber(m, PayloadIndex(i)) < 10_0000_0000)
  {
    StepShape(m, i);
    var n := PayloadNumber(m, PayloadIndex(i));
    assert Pow10(8) == 1_0000_0000 && Pow10(9) == 10_0000_0000;
    if n < 0 {
      DecNatLengthExactly(-n, 8);
    } else {
      DecNatLengthExactly(n, 9);
    }
  }

  /** What fits, in numbers: strings of at most 99 escaped bytes, and numbers of at most
      nine characters. */
  lemma {:induction false} FitsMeans(m: InvoiceMsg)
    ensures FitsLocals(m)
            <==> && |Escape(m.orderSid)| <= 99 && |Escape(m.productSid)| <= 99 && |Escape(m.userName)| <= 99
                 && |Escape(m.userEmail)| <= 99 && |Escape(m.productName)| <= 99
                 && -1_0000_0000 < m.userId < 10_0000_0000 && -1_0000_0000 < m.productPrice < 10_0000_0000
                 && -1_0000_0000 < m.quantity < 10_0000_0000 && -1_0000_0000 < m.total < 10_0000_0000
  {
    NumberFits(m, 0);
    NumberFits(m, 6);
    NumberFits(m, 7);
    NumberFits(m, 8);
    assert Fits(m, 1) <==> |Escape(m.orderSid)| <= 99;
    assert Fits(m, 2) <==> |Escape(m.productSid)| <= 99;
    assert Fits(m, 3) <==> |Escape(m.userName)| <= 99;
    assert Fits(m, 4) <==> |Escape(m.userEmail)| <= 99;
    assert Fits(m, 5) <==> |Escape(m.productName)| <= 99;
  }

  /** Nothing is hidden exactly when all nine keys are found in the payload. */
  lemma {:induction false} HiddenMeans(m: InvoiceMsg)
    ensures NothingHidden(m)
            <==> forall key | key in {"user_id", "order_sid", "product_sid", "user_name", "user_email",
                                      "product_name", "product_price", "quantity", "total"} ::
                   Extract(PayloadText(m), key).Some?
  {
    forall i | 0 <= i < 9 ensures Findable(m, i) <==> Extract(PayloadText(m), StepKey(i)).Some? {
      PayloadRoundTrip(m, PayloadIndex(i));
    }
    StepKeys();
  }

  lemma StepKeys()
    ensures StepKey(0) == "user_id" && StepKey(1) == "order_sid" && StepKey(2) == "product_sid"
    ensures StepKey(3) == "user_name" && StepKey(4) == "user_email" && StepKey(5) == "product_name"
    ensures StepKey(6) == "product_price" && StepKey(7) == "quantity" && StepKey(8) == "total"
  {
  }

  // MARK: acceptance

  predicate LowBytesNonZero(m: InvoiceMsg) {
    Byte(m.userId) > 0 && Byte(m.productPrice) > 0 && Byte(m.quantity) > 0 && Byte(m.total) > 0
  }

  predicate StringsNonEmpty(m: InvoiceMsg) {
    m.orderSid != "" && m.productSid != "" && m.userName != "" && m.userEmail != "" && m.productName != ""
  }

  lemma ValuesAccepted(m: InvoiceMsg)
    ensures (forall i | 0 <= i < 9 :: ValueAccepted(m, i)) <==> LowBytesNonZero(m) && StringsNonEmpty(m)
  {
    assert ValueAccepted(m, 0) <==> Byte(m.userId) > 0;
    assert ValueAccepted(m, 1) <==> m.orderSid != "";
    assert ValueAccepted(m, 2) <==> m.productSid != "";
    assert ValueAccepted(m, 3) <==> m.userName != "";
    assert ValueAccepted(m, 4) <==> m.userEmail != "";
    assert ValueAccepted(m, 5) <==> m.productName != "";
    assert ValueAccepted(m, 6) <==> Byte(m.productPrice) > 0;
    assert ValueAccepted(m, 7) <==> Byte(m.quantity) > 0;
    assert ValueAccepted(m, 8) <==> Byte(m.total) > 0;
  }

  /** The C function returns `code` and leaves `out`, within its local buffers. */
  predicate Parses(inv: Invoice, t: string, code: nat, out: Invoice) {
    BuffersSuffice(t, 0) && ParseFrom(inv, t, 0) == (code, out)
  }

  /** From step `i` on, every value is found and accepted. */
  predicate AllPassed(m: InvoiceMsg, i: nat)
    requires i <= 9
    decreases 9 - i
  {
    i < 9 ==> Passed(m, i) && AllPassed(m, i + 1)
  }

  predicate AllFit(m: InvoiceMsg, i: nat)
    requires i <= 9
    decreases 9 - i
  {
    i < 9 ==> Fits(m, i) && AllFit(m, i + 1)
  }

  lemma {:induction false} AcceptsFrom(m: InvoiceMsg, inv: Invoice, i: nat)
    requires i <= 9
    ensures ParseFrom(inv, PayloadText(m), i).0 == 0 <==> AllPassed(m, i)
    ensures AllPassed(m, i) ==> (BuffersSuffice(PayloadText(m), i) <==> AllFit(m, i))
    decreases 9 - i
  {
    if i < 9 {
      SafeStep(m, i);
      AcceptedOfPayload(m, i);
      AcceptsFrom(m, SetField(inv, i, Local(PayloadText(m), i)), i + 1);
    }
  }

  lemma {:induction false} AllPassedIs(m: InvoiceMsg, i: nat)
    requires i <= 9
    ensures AllPassed(m, i)
            <==> (forall k | i <= k < 9 :: Findable(m, k)) && (forall k | i <= k < 9 :: ValueAccepted(m, k))
    decreases 9 - i
  {
    if i < 9 {
      AllPassedIs(m, i + 1);
    }
  }

  lemma {:induction false} AllFitIs(m: InvoiceMsg, i: nat)
    requires i <= 9
    ensures AllFit(m, i) <==> forall k | i <= k < 9 :: Fits(m, k)
    decreases 9 - i
  {
    if i < 9 {
      AllFitIs(m, i + 1);
    }
  }

  /** The two conditions in terms of the message. */
  lemma {:induction false} AcceptsByMessage(m: InvoiceMsg, inv: Invoice)
    ensures ParseFrom(inv, PayloadText(m), 0).0 == 0
            <==> NothingHidden(m) && LowBytesNonZero(m) && StringsNonEmpty(m)
    ensures ParseFrom(inv, PayloadText(m), 0).0 == 0 ==> (BuffersSuffice(PayloadText(m), 0) <==> FitsLocals(m))
  {
    AcceptsFrom(m, inv, 0);
    AllPassedIs(m, 0);
    AllFitIs(m, 0);
    ValuesAccepted(m);
  }

  /** The invoice service accepts exactly the payloads in which no searched key is hidden,
      the four low bytes are non-zero, the five strings are non-empty and every value fits
      in its local buffer. */
  lemma {:induction false} AcceptsExactly(m: InvoiceMsg, inv: Invoice)
    ensures BuffersSuffice(PayloadText(m), 0) && ParseFrom(inv, PayloadText(m), 0).0 == 0
            <==> NothingHidden(m) && LowBytesNonZero(m) && StringsNonEmpty(m) && FitsLocals(m)
  {
    AcceptsByMessage(m, inv);
  }

  /** Without the last condition the text would still be accepted, but not safely. */
  lemma {:induction false} AcceptedButOverrun(m: InvoiceMsg, inv: Invoice)
    requires NothingHidden(m) && LowBytesNonZero(m) && StringsNonEmpty(m)
    ensures ParseFrom(inv, PayloadText(m), 0).0 == 0
    ensures BuffersSuffice(PayloadText(m), 0) <==> FitsLocals(m)
  {
    AcceptsByMessage(m, inv);
  }

  /** A product called "total" hides the key of the total: its orders never get an
      invoice. */
  lemma {:induction false} ProductNamedTotalIsRejected(m: InvoiceMsg, inv: Invoice)
    requires m.productName == "total"
    ensures ParseFrom(inv, PayloadText(m), 0).0 != 0
  {
    assert Hides(m, 2, StepKey(8)) && !Findable(m, 8);
    AcceptsByMessage(m, inv);
  }

  /** An order of 10_000_001 units at 101 each, between one-letter names, has a total of
      ten digits, which writes past its buffer. */
  lemma {:induction false} LargeTotalOverruns(m: InvoiceMsg, inv: Invoice)
    requires m.quantity == 1000_0001 && m.productPrice == 101 && m.total == Int64(m.quantity * m.productPrice)
    requires m.userId == 1 && forall p | 0 <= p < 10 && PayloadString(m, p).Some? :: |PayloadString(m, p).value| == 1
    ensures ParseFrom(inv, PayloadText(m), 0).0 == 0
    ensures !BuffersSuffice(PayloadText(m), 0)
  {
    forall i | 0 <= i < 9 ensures Findable(m, i) {
      ShortStringsHideNothing(m, i);
    }
    assert PayloadString(m, 0).Some? && PayloadString(m, 1).Some? && PayloadString(m, 2).Some?;
    assert PayloadString(m, 4).Some? && PayloadString(m, 7).Some? && PayloadString(m, 9).Some?;
    NumberFits(m, 8);
    AcceptedButOverrun(m, inv);
  }

  lemma ShortStringsHideNothing(m: InvoiceMsg, i: nat)
    requires i < 9
    requires forall p | 0 <= p < 10 && PayloadString(m, p).Some? :: |PayloadString(m, p).value| == 1
    ensures Findable(m, i)
  {
    assert |StepKey(i)| > 1;
  }

  lemma {:induction false} NumberOfPayload(m: InvoiceMsg, i: nat)
    requires i < 9 && Findable(m, i) && PayloadString(m, PayloadIndex(i)).None?
    ensures Byte(Atoi(Local(PayloadText(m), i))) == Byte(PayloadNumber(m, PayloadIndex(i)))
  {
    PayloadStep(m, i);
    AtoiOfDec(PayloadNumber(m, PayloadIndex(i)));
  }

  lemma {:induction false} StringOfPayload(m: InvoiceMsg, i: nat)
    requires i < 9 && Findable(m, i) && PayloadString(m, PayloadIndex(i)).Some?
    ensures Local(PayloadText(m), i) == Escape(PayloadString(m, PayloadIndex(i)).value)
  {
    PayloadStep(m, i);
  }

  /** The struct that belongs to a message: low bytes and escaped bodies. */
  function InvoiceFor(inv: Invoice, m: InvoiceMsg): Invoice {
    inv.(userId := Byte(m.userId),
         orderSid := Escape(m.orderSid), productSid := Escape(m.productSid),
         userName := Escape(m.userName), userEmail := Escape(m.userEmail),
         productName := Escape(m.productName),
         pricePerItem := Byte(m.productPrice), quantity := Byte(m.quantity),
         total := Byte(m.total))
  }

  lemma {:induction false} FactorsOfPayload(m: InvoiceMsg, inv: Invoice)
    requires NothingHidden(m)
    ensures var all := AllSet(inv, PayloadText(m));
            all.pricePerItem == Byte(m.productPrice) && all.quantity == Byte(m.quantity)
  {
    NumberOfPayload(m, 6);
    NumberOfPayload(m, 7);
  }

  lemma {:induction false} UserAndTotalOfPayload(m: InvoiceMsg, inv: Invoice)
    requires NothingHidden(m)
    ensures var all := AllSet(inv, PayloadText(m));
            all.userId == Byte(m.userId) && all.total == Byte(m.total)
  {
    NumberOfPayload(m, 0);
    NumberOfPayload(m, 8);
  }

  lemma {:induction false} SidsOfPayload(m: InvoiceMsg, inv: Invoice)
    requires NothingHidden(m)
    ensures var all := AllSet(inv, PayloadText(m));
            all.orderSid == Escape(m.orderSid) && all.productSid == Escape(m.productSid)
  {
    StringOfPayload(m, 1);
    StringOfPayload(m, 2);
  }

  lemma {:induction false} NamesOfPayload(m: InvoiceMsg, inv: Invoice)
    requires NothingHidden(m)
    ensures var all := AllSet(inv, PayloadText(m));
            && all.userName == Escape(m.userName) && all.userEmail == Escape(m.userEmail)
            && all.productName == Escape(m.productName)
  {
    StringOfPayload(m, 3);
    StringOfPayload(m, 4);
    StringOfPayload(m, 5);
  }

  lemma {:induction false} AllSetOfPayload(m: InvoiceMsg, inv: Invoice)
    requires NothingHidden(m)
    ensures AllSet(inv, PayloadText(m)) == InvoiceFor(inv, m)
  {
    FactorsOfPayload(m, inv);
    UserAndTotalOfPayload(m, inv);
    SidsOfPayload(m, inv);
    NamesOfPayload(m, inv);
  }

  lemma {:induction false} InvoiceForDecodes(m: InvoiceMsg, inv: Invoice)
    ensures var out := InvoiceFor(inv, m);
            && Decode(out.orderSid) == Some(m.orderSid) && Decode(out.productSid) == Some(m.productSid)
            && Decode(out.userName) == Some(m.userName) && Decode(out.userEmail) == Some(m.userEmail)
            && Decode(out.productName) == Some(m.productName)
  {
    DecodeOfEscape(m.orderSid);
    DecodeOfEscape(m.productSid);
    DecodeOfEscape(m.userName);
    DecodeOfEscape(m.userEmail);
    DecodeOfEscape(m.productName);
  }

  /** An accepted payload fills the struct with its low bytes and with bodies that stand for
      its strings, and touches nothing else. */
  lemma {:induction false} AcceptedInvoice(m: InvoiceMsg, inv: Invoice, out: Invoice)
    requires Parses(inv, PayloadText(m), 0, out)
    ensures out == InvoiceFor(inv, m)
    ensures Decode(out.orderSid) == Some(m.orderSid) && Decode(out.productSid) == Some(m.productSid)
    ensures Decode(out.userName) == Some(m.userName) && Decode(out.userEmail) == Some(m.userEmail)
    ensures Decode(out.productName) == Some(m.productName)
    ensures out.userId == Byte(m.userId) && out.pricePerItem == Byte(m.productPrice)
    ensures out.quantity == Byte(m.quantity) && out.total == Byte(m.total)
    ensures out.id == inv.id && out.sid == inv.sid && out.createdAt == inv.createdAt
    ensures NothingHidden(m) && LowBytesNonZero(m) && StringsNonEmpty(m) && FitsLocals(m)
  {
    AcceptsExactly(m, inv);
    AcceptedSetsAll(inv, PayloadText(m));
    AllSetOfPayload(m, inv);
    InvoiceForDecodes(m, inv);
  }

  /** The arithmetic survives the narrowing to bytes, a 64-bit wrap of the total included. */
  lemma {:induction false} ByteArithmetic(m: InvoiceMsg)
    requires m.total == Int64(m.quantity * m.productPrice)
    ensures Byte(m.total) == Byte(Byte(m.productPrice) * Byte(m.quantity))
  {
    ByteOfInt64(m.quantity * m.productPrice);
    ByteOfProduct(m.productPrice, m.quantity);
  }

  /** An accepted invoice of a checkout order multiplies out modulo 256, and shows the
      checkout total exactly when that total fits in a byte. */
  lemma {:induction false} InvoiceArithmetic(m: InvoiceMsg, inv: Invoice, out: Invoice)
    requires m.total == Int64(m.quantity * m.productPrice)
    requires Parses(inv, PayloadText(m), 0, out)
    ensures out.total == Byte(out.pricePerItem * out.quantity)
    ensures out.total == m.total <==> 0 <= m.total < 256
    ensures out.orderSid == Escape(m.orderSid) && out.productSid == Escape(m.productSid)
  {
    AcceptedInvoice(m, inv, out);
    ByteArithmetic(m);
  }

  /** The handling of one message from the channel, up to the parser's answer. The caller
      answers for the local buffers: the C code does not check them. */
  method ParseMessage(data: CString, slot: InvoiceSlot, ghost m: InvoiceMsg) returns (code: nat)
    requires Text(data) == PayloadText(m) && BuffersSuffice(PayloadText(m), 0)
    modifies slot
    ensures code == 0 <==> NothingHidden(m) && LowBytesNonZero(m) && StringsNonEmpty(m) && FitsLocals(m)
    ensures code == 0 ==> slot.inv == InvoiceFor(old(slot.inv), m)
    ensures code == 0 ==>
              && Decode(slot.inv.orderSid) == Some(m.orderSid) && Decode(slot.inv.productSid) == Some(m.productSid)
              && Decode(slot.inv.userName) == Some(m.userName) && Decode(slot.inv.userEmail) == Some(m.userEmail)
              && Decode(slot.inv.productName) == Some(m.productName)
              && slot.inv.userId == Byte(m.userId) && slot.inv.pricePerItem == Byte(m.productPrice)
              && slot.inv.quantity == Byte(m.quantity) && slot.inv.total == Byte(m.total)
              && slot.inv.id == old(slot.inv.id) && slot.inv.sid == old(slot.inv.sid)
              && slot.inv.createdAt == old(slot.inv.createdAt)
  {
    code := ParseRedisInvoiceGen(data, slot);
    AcceptsExactly(m, old(slot.inv));
    if code == 0 {
      AcceptedInvoice(m, old(slot.inv), slot.inv);
    }
  }
}
