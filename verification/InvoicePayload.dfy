/** The invoice request that checkout publishes: a Go map printed by encoding/json,
    with sorted keys, no white space, and HTML-safe string escapes. */
module InvoicePayload {
  import opened JsonReader
  import opened JsonScanner
  import opened JsonText
  import opened Numbers
  import opened PrintedJson
  import opened Wrappers

  /** The values put into the payload map. */
  datatype InvoiceMsg = InvoiceMsg(
    orderSid: string, userId: nat, productSid: string,
    quantity: int, productPrice: int, currency: string, total: int,
    userName: string, userEmail: string, productName: string)

  // MARK: string escapes

  const HEX := "0123456789abcdef"

  /** The escape of one byte; bytes from 0x80 on are copied. */
  function EscapeByte(c: char): (e: string)
    ensures e != "" && (e == [c] || e[0] == '\\')
  {
    if c == '"' || c == '\\' then ['\\', c]
    else if c == 8 as char then "\\b"
    else if c == 12 as char then "\\f"
    else if c == '\n' then "\\n"
    else if c == '\r' then "\\r"
    else if c == '\t' then "\\t"
    else if c < ' ' || c == '<' || c == '>' || c == '&' then
      "\\u00" + [HEX[c as int / 16], HEX[c as int % 16]]
    else [c]
  }

  /** The UTF-8 bytes of U+2028 and U+2029, which the encoder escapes as well. */
  predicate LineSeparator(s: string) {
    && |s| >= 3 && s[0] == 0xE2 as char && s[1] == 0x80 as char
    && (s[2] == 0xA8 as char || s[2] == 0xA9 as char)
  }

  /** The first unit of `s` (one byte, or a separator) and its escape. */
  function Unit(s: string): (n: nat)
    requires s != ""
    ensures 1 <= n <= |s|
  {
    if LineSeparator(s) then 3 else 1
  }

  function EscapeUnit(s: string): (e: string)
    requires s != ""
    ensures e != "" && (e == s[..1] || e[0] == '\\')
  {
    if LineSeparator(s) then (if s[2] == 0xA8 as char then "\\u2028" else "\\u2029") else EscapeByte(s[0])
  }

  /** The body of a printed string, for valid UTF-8. */
  function Escape(s: string): string {
    if s == "" then "" else EscapeUnit(s) + Escape(s[Unit(s)..])
  }

  /** One byte that needs no escape, or a backslash, one byte, and bytes like these. */
  lemma EscapeUnitBytes(s: string)
    requires s != ""
    ensures var e := EscapeUnit(s);
            if e[0] == '\\' then |e| > 1 && '"' !in e[2..] && '\\' !in e[2..]
            else |e| == 1 && e[0] != '"'
  {
    assert forall k | 0 <= k < 16 :: HEX[k] != '"' && HEX[k] != '\\';
  }

  lemma EscapeUnitShape(s: string, rest: string)
    requires s != "" && WellEscaped(rest)
    ensures WellEscaped(EscapeUnit(s) + rest)
    ensures s[0] == '"' ==> EscapeUnit(s) == ['\\', '"']
    ensures s[0] != '"' ==> '"' !in EscapeUnit(s) && '"' !in s[..Unit(s)]
  {
    var e := EscapeUnit(s);
    EscapeUnitBytes(s);
    if e[0] == '\\' {
      assert (e + rest)[2..] == e[2..] + rest;
      PlainPrefix(e[2..], rest);
    } else {
      assert (e + rest)[1..] == rest;
    }
  }

  lemma {:induction false} PlainPrefix(u: string, rest: string)
    requires WellEscaped(rest) && '"' !in u && '\\' !in u
    ensures WellEscaped(u + rest)
  {
    if u == "" {
      assert u + rest == rest;
    } else {
      assert (u + rest)[1..] == u[1..] + rest;
      PlainPrefix(u[1..], rest);
    }
  }

  /** Whatever the value, its printed body is well escaped. */
  lemma {:induction false} EscapeIsWellEscaped(s: string)
    ensures WellEscaped(Escape(s))
    decreases |s|
  {
    if s != "" {
      EscapeIsWellEscaped(s[Unit(s)..]);
      EscapeUnitShape(s, Escape(s[Unit(s)..]));
    }
  }

  lemma UnitOfIdent(s: string)
    requires s != "" && IdentChar(s[0])
    ensures Unit(s) == 1 && EscapeUnit(s) == [s[0]]
  {
  }

  /** Only an identifier itself is printed as that identifier. */
  lemma {:induction false} EscapeIsIdent(s: string, k: string)
    requires forall c | c in k :: IdentChar(c)
    ensures Escape(s) == k <==> s == k
    decreases |s|
  {
    if s != "" {
      var e, rest := EscapeUnit(s), s[Unit(s)..];
      if k != "" {
        assert k[0] in k && (e + Escape(rest))[0] == e[0];
        if s[0] == k[0] {
          UnitOfIdent(s);
          assert (e + Escape(rest))[1..] == Escape(rest);
          assert s == [s[0]] + rest && k == [k[0]] + k[1..];
          EscapeIsIdent(rest, k[1..]);
        }
      }
    }
  }

  lemma {:induction false} SuffixPastPlain(u: string, rest: string, k: string)
    requires '"' !in u
    ensures EndsWith(u + rest, QUOTE + k) <==> EndsWith(rest, QUOTE + k)
  {
    if u == "" {
      assert u + rest == rest;
    } else {
      assert (u + rest)[1..] == u[1..] + rest && (u + rest)[0] == u[0];
      EndsWithCons(u + rest, QUOTE + k);
      SuffixPastPlain(u[1..], rest, k);
    }
  }

  /** A body ends with an escaped quote and the key exactly when the value ends with a
      quote and the key: escapes neither make nor hide such an ending. */
  lemma {:induction false} EscapeKeepsSuffix(s: string, k: string)
    requires forall c | c in k :: IdentChar(c)
    ensures EndsWith(Escape(s), QUOTE + k) <==> EndsWith(s, QUOTE + k)
    decreases |s|
  {
    if s != "" {
      var e, rest := EscapeUnit(s), s[Unit(s)..];
      EscapeIsWellEscaped(rest);
      EscapeUnitShape(s, Escape(rest));
      EscapeKeepsSuffix(rest, k);
      if s[0] == '"' {
        assert s == QUOTE + rest && e + Escape(rest) == "\\" + QUOTE + Escape(rest);
        QuotedEnd(Escape(rest), k);
        QuoteEnd(rest, k);
        EscapeIsIdent(rest, k);
      } else {
        SuffixPastPlain(e, Escape(rest), k);
        assert s == s[..Unit(s)] + rest;
        SuffixPastPlain(s[..Unit(s)], rest, k);
      }
    }
  }

  // MARK: what a body stands for

  lemma HexDigit(d: nat)
    requires d < 16
    ensures HexValue(HEX[d]) == Some(d)
  {
  }

  lemma {:induction false} DecodeHex(c: char, rest: string)
    requires c < '@'
    ensures Decode("\\u00" + [HEX[c as int / 16], HEX[c as int % 16]] + rest) == Prepend([c], Decode(rest))
  {
    var body := "\\u00" + [HEX[c as int / 16], HEX[c as int % 16]] + rest;
    HexDigit(c as int / 16);
    HexDigit(c as int % 16);
    assert body[2..6] == ['0', '0', HEX[c as int / 16], HEX[c as int % 16]] && body[6..] == rest;
    assert CodeUnit(body[2..6]) == Some(c as int);
  }

  lemma {:induction false} DecodeShort(e: char, rest: string)
    requires ShortEscape(e).Some?
    ensures Decode(['\\', e] + rest) == Prepend([ShortEscape(e).value], Decode(rest))
  {
    assert (['\\', e] + rest)[2..] == rest;
    assert e != 'u';
  }

  lemma {:induction false} DecodeSeparator(s: string, rest: string)
    requires LineSeparator(s)
    ensures Decode(EscapeUnit(s) + rest) == Prepend(s[..3], Decode(rest))
  {
    var body := EscapeUnit(s) + rest;
    assert body[6..] == rest;
    assert body[2..6] == if s[2] == 0xA8 as char then "2028" else "2029";
    assert s[..3] == [s[0], s[1], s[2]];
  }

  lemma {:induction false} DecodeUnit(s: string, rest: string)
    requires s != ""
    ensures Decode(EscapeUnit(s) + rest) == Prepend(s[..Unit(s)], Decode(rest))
  {
    var c := s[0];
    if LineSeparator(s) {
      DecodeSeparator(s, rest);
    } else {
      assert s[..1] == [c];
      var e := EscapeByte(c);
      if |e| == 1 {
        assert (e + rest)[1..] == rest && (e + rest)[..1] == e;
      } else if |e| == 2 {
        DecodeShort(e[1], rest);
        assert e == ['\\', e[1]];
      } else {
        DecodeHex(c, rest);
      }
    }
  }

  /** A printed body stands for the string that was printed, whatever it contains. */
  lemma {:induction false} DecodeOfEscape(s: string)
    ensures Decode(Escape(s)) == Some(s)
    decreases |s|
  {
    if s != "" {
      DecodeUnit(s, Escape(s[Unit(s)..]));
      DecodeOfEscape(s[Unit(s)..]);
      assert s == s[..Unit(s)] + s[Unit(s)..];
    }
  }

  /** A byte that may stand unescaped in a body printed for HTML. */
  predicate HtmlSafe(c: char) {
    c >= ' ' && c != '<' && c != '>' && c != '&'
  }

  /** Six characters only where no shorter escape exists, with lower-case digits. */
  lemma EscapeByteIsShortest(c: char)
    ensures forall x | x in EscapeByte(c) :: HtmlSafe(x)
    ensures |EscapeByte(c)| == 1 <==> HtmlSafe(c) && c != '"' && c != '\\'
    ensures |EscapeByte(c)| == 2
            <==> exists e :: e in {'"', '\\', 'b', 'f', 'n', 'r', 't'} && ShortEscape(e) == Some(c)
    ensures |EscapeByte(c)| > 2 ==> |EscapeByte(c)| == 6 && !('A' <= EscapeByte(c)[4] <= 'F') && !('A' <= EscapeByte(c)[5] <= 'F')
  {
    assert forall k | 0 <= k < 16 :: HtmlSafe(HEX[k]) && !('A' <= HEX[k] <= 'F');
    assert ShortEscape('"') == Some('"') && ShortEscape('\\') == Some('\\');
    assert ShortEscape('b') == Some(8 as char) && ShortEscape('f') == Some(12 as char);
    assert ShortEscape('n') == Some('\n') && ShortEscape('r') == Some('\r') && ShortEscape('t') == Some('\t');
  }

  /** No printed body contains a control character, an angle bracket or an ampersand. */
  lemma {:induction false} EscapeIsHtmlSafe(s: string)
    ensures forall c | c in Escape(s) :: HtmlSafe(c)
    decreases |s|
  {
    if s != "" {
      EscapeIsHtmlSafe(s[Unit(s)..]);
      EscapeByteIsShortest(s[0]);
    }
  }

  /** The clash condition, on the value itself. */
  predicate RawClash(s: string, k: string) {
    s == k || EndsWith(s, QUOTE + k)
  }

  lemma {:induction false} ClashIsRaw(s: string, k: string)
    requires CleanKey(k)
    ensures Clash(Str(Escape(s)), k) <==> RawClash(s, k)
  {
    EscapeIsIdent(s, k);
    EscapeKeepsSuffix(s, k);
  }

  // MARK: the payload

  function Quoted(s: string): Value {
    Str(Escape(s))
  }

  function Number(n: int): Value {
    Num(Dec(n))
  }

  /** The keys of the payload map, in the order in which they are printed. */
  function PayloadKey(i: nat): string
    requires i < 10
  {
    match i
    case 0 => "currency"
    case 1 => "order_sid"
    case 2 => "product_name"
    case 3 => "product_price"
    case 4 => "product_sid"
    case 5 => "quantity"
    case 6 => "total"
    case 7 => "user_email"
    case 8 => "user_id"
    case _ => "user_name"
  }

  /** The strings of the payload, before escaping. */
  function PayloadString(m: InvoiceMsg, i: nat): Option<string>
    requires i < 10
  {
    match i
    case 0 => Some(m.currency)
    case 1 => Some(m.orderSid)
    case 2 => Some(m.productName)
    case 4 => Some(m.productSid)
    case 7 => Some(m.userEmail)
    case 9 => Some(m.userName)
    case _ => None
  }

  /** The numbers of the payload. */
  function PayloadNumber(m: InvoiceMsg, i: nat): int
    requires i < 10 && PayloadString(m, i).None?
  {
    match i
    case 3 => m.productPrice
    case 5 => m.quantity
    case 6 => m.total
    case _ => m.userId
  }

  function PayloadValue(m: InvoiceMsg, i: nat): Value
    requires i < 10
  {
    match PayloadString(m, i)
    case Some(s) => Quoted(s)
    case None => Number(PayloadNumber(m, i))
  }

  /** Member `j` hides a key printed after it: it is a string that equals the key or ends
      with a quote followed by it. */
  predicate Hides(m: InvoiceMsg, j: nat, key: string)
    requires j < 10
  {
    PayloadString(m, j).Some? && RawClash(PayloadString(m, j).value, key)
  }

  /** Escaping neither creates nor removes a clash. */
  lemma {:induction false} HidesIsClash(m: InvoiceMsg, j: nat, key: string)
    requires j < 10 && CleanKey(key)
    ensures Hides(m, j, key) <==> Clash(PayloadValue(m, j), key)
  {
    if PayloadString(m, j).Some? {
      ClashIsRaw(PayloadString(m, j).value, key);
    }
  }

  function PayloadFields(m: InvoiceMsg): (fs: seq<Field>)
    ensures |fs| == 10
  {
    seq(10, i requires 0 <= i < 10 => Field(PayloadKey(i), PayloadValue(m, i)))
  }

  function PayloadText(m: InvoiceMsg): string {
    ObjectText("", PayloadFields(m))
  }

  lemma PayloadKeyIsClean(i: nat)
    requires i < 10
    ensures CleanKey(PayloadKey(i)) && NUL !in PayloadKey(i)
  {
  }

  lemma PayloadKeysDiffer(i: nat, j: nat)
    requires i < j < 10
    ensures PayloadKey(i) != PayloadKey(j)
  {
  }

  lemma {:induction false} PayloadValueIsClean(m: InvoiceMsg, i: nat)
    requires i < 10
    ensures PayloadValue(m, i).Str? ==> WellEscaped(PayloadValue(m, i).body)
    ensures PayloadValue(m, i).Num? ==> CleanNumber(PayloadValue(m, i).text)
  {
    if PayloadString(m, i).Some? {
      EscapeIsWellEscaped(PayloadString(m, i).value);
    }
  }

  lemma {:induction false} PayloadIsClean(m: InvoiceMsg)
    ensures CleanFields(PayloadFields(m))
  {
    forall f | f in PayloadFields(m)
      ensures CleanKey(f.key)
      ensures f.value.Str? ==> WellEscaped(f.value.body)
      ensures f.value.Num? ==> CleanNumber(f.value.text)
    {
      var i :| 0 <= i < 10 && f == Field(PayloadKey(i), PayloadValue(m, i));
      PayloadKeyIsClean(i);
      PayloadValueIsClean(m, i);
    }
  }

  // MARK: no terminator inside

  lemma {:induction false} EscapeHasNoNul(s: string)
    ensures NUL !in Escape(s)
    decreases |s|
  {
    if s != "" {
      EscapeHasNoNul(s[Unit(s)..]);
      EscapeUnitHasNoNul(s);
    }
  }

  lemma EscapeUnitHasNoNul(s: string)
    requires s != ""
    ensures NUL !in EscapeUnit(s)
  {
    assert forall k | 0 <= k < 16 :: HEX[k] != NUL;
  }

  lemma PayloadFieldHasNoNul(m: InvoiceMsg, i: nat)
    requires i < 10
    ensures NUL !in FieldText("", Field(PayloadKey(i), PayloadValue(m, i)))
  {
    PayloadKeyIsClean(i);
    if PayloadString(m, i).Some? {
      EscapeHasNoNul(PayloadString(m, i).value);
    }
  }

  lemma {:induction false} MembersHaveNoNul(fs: seq<Field>)
    requires fs != [] && forall f | f in fs :: NUL !in FieldText("", f)
    ensures NUL !in Members("", fs)
  {
    assert fs[0] in fs && forall f | f in fs[1..] :: f in fs;
    if fs[1..] != [] {
      MembersHaveNoNul(fs[1..]);
    }
  }

  /** A payload is a C string whatever its values contain, NUL bytes included. */
  lemma {:induction false} PayloadHasNoNul(m: InvoiceMsg)
    ensures NUL !in PayloadText(m)
    ensures IsCString(PayloadText(m) + [NUL])
  {
    forall f | f in PayloadFields(m) ensures NUL !in FieldText("", f) {
      var i :| 0 <= i < 10 && f == Field(PayloadKey(i), PayloadValue(m, i));
      PayloadFieldHasNoNul(m, i);
    }
    MembersHaveNoNul(PayloadFields(m));
  }

  /** `get_json_value` on a published payload: the decimal text of a number, the escaped
      body of a string, or -1 when an earlier string value clashes with the key. */
  lemma {:induction false} PayloadRoundTrip(m: InvoiceMsg, i: nat)
    requires i < 10
    ensures Extract(PayloadText(m), PayloadKey(i))
            == if forall j | 0 <= j < i :: !Hides(m, j, PayloadKey(i))
               then Some(Raw(PayloadValue(m, i))) else None
    ensures Written(PayloadText(m), PayloadKey(i))
            == if forall j | 0 <= j < i :: !Hides(m, j, PayloadKey(i)) then |Raw(PayloadValue(m, i))| + 1 else 0
  {
    var fs := PayloadFields(m);
    PayloadIsClean(m);
    PayloadKeyIsClean(i);
    ExtractIsLookup("", fs, PayloadKey(i));
    forall j | 0 <= j < i ensures fs[j].key != fs[i].key {
      PayloadKeysDiffer(j, i);
    }
    LookupAt(fs, i);
    forall j | 0 <= j < i ensures Hides(m, j, PayloadKey(i)) <==> Clash(fs[j].value, fs[i].key) {
      HidesIsClash(m, j, PayloadKey(i));
    }
  }

  // MARK: what a payload means

  lemma {:induction false} PayloadFieldIsReadable(m: InvoiceMsg, i: nat)
    requires i < 10
    ensures CleanKey(PayloadKey(i)) && Readable(PayloadValue(m, i))
  {
    PayloadKeyIsClean(i);
    match PayloadString(m, i)
    case Some(s) =>
      EscapeIsWellEscaped(s);
      EscapeIsHtmlSafe(s);
    case None =>
      assert PayloadValue(m, i) == Num(Dec(PayloadNumber(m, i)));
  }

  /** A member with this name, and a string that stands for `s`. */
  predicate HasString(f: Field, key: string, s: string) {
    f.key == key && f.value.Str? && Decode(f.value.body) == Some(s)
  }

  predicate HasNumber(f: Field, key: string, n: int) {
    f.key == key && f.value == Num(Dec(n))
  }

  /** A payload is JSON: a reader that follows the standard finds the ten values of the
      message under their names, sorted. */
  lemma {:induction false} PayloadReads(m: InvoiceMsg)
    ensures var r := ReadObject(PayloadText(m));
            && r.Read? && r.rest == "" && |r.value| == 10
            && HasString(r.value[0], "currency", m.currency)
            && HasString(r.value[1], "order_sid", m.orderSid)
            && HasString(r.value[2], "product_name", m.productName)
            && HasNumber(r.value[3], "product_price", m.productPrice)
            && HasString(r.value[4], "product_sid", m.productSid)
            && HasNumber(r.value[5], "quantity", m.quantity)
            && HasNumber(r.value[6], "total", m.total)
            && HasString(r.value[7], "user_email", m.userEmail)
            && HasNumber(r.value[8], "user_id", m.userId)
            && HasString(r.value[9], "user_name", m.userName)
  {
    PayloadIsJson(m);
    FieldAt(m, 0);
    FieldAt(m, 1);
    FieldAt(m, 2);
    FieldAt(m, 3);
    FieldAt(m, 4);
    FieldAt(m, 5);
    FieldAt(m, 6);
    FieldAt(m, 7);
    FieldAt(m, 8);
    FieldAt(m, 9);
  }

  lemma {:induction false} PayloadIsJson(m: InvoiceMsg)
    ensures ReadObject(PayloadText(m)) == Read(PayloadFields(m), "")
  {
    var fs := PayloadFields(m);
    forall f | f in fs ensures CleanKey(f.key) && Readable(f.value) {
      var i :| 0 <= i < 10 && f == Field(PayloadKey(i), PayloadValue(m, i));
      PayloadFieldIsReadable(m, i);
    }
    ReadObjectOf("", fs, "");
    assert PayloadText(m) + "" == PayloadText(m);
  }

  lemma {:induction false} FieldAt(m: InvoiceMsg, i: nat)
    requires i < 10
    ensures match PayloadString(m, i)
            case Some(s) => HasString(PayloadFields(m)[i], PayloadKey(i), s)
            case None => HasNumber(PayloadFields(m)[i], PayloadKey(i), PayloadNumber(m, i))
  {
    if PayloadString(m, i).Some? {
      DecodeOfEscape(PayloadString(m, i).value);
    }
  }

  /** If the key is found at all, what is found stands for `s`. */
  predicate GivesString(t: string, key: string, s: string) {
    Extract(t, key).Some? ==> Decode(Extract(t, key).value) == Some(s)
  }

  predicate GivesNumber(t: string, key: string, n: int) {
    Extract(t, key).Some? ==> Extract(t, key).value == Dec(n)
  }

  lemma {:induction false} MemberGives(m: InvoiceMsg, i: nat)
    requires i < 10
    ensures match PayloadString(m, i)
            case Some(s) => GivesString(PayloadText(m), PayloadKey(i), s)
            case None => GivesNumber(PayloadText(m), PayloadKey(i), PayloadNumber(m, i))
  {
    PayloadRoundTrip(m, i);
    if PayloadString(m, i).Some? {
      DecodeOfEscape(PayloadString(m, i).value);
    }
  }

  /** What `get_json_value` finds in a payload is the message's own value: the decimal text
      of a number, and for a string a body that stands for it. */
  lemma {:induction false} PayloadGives(m: InvoiceMsg)
    ensures var t := PayloadText(m);
            && Extract(t, "currency").Some?
            && GivesString(t, "currency", m.currency) && GivesString(t, "order_sid", m.orderSid)
            && GivesString(t, "product_name", m.productName) && GivesNumber(t, "product_price", m.productPrice)
            && GivesString(t, "product_sid", m.productSid) && GivesNumber(t, "quantity", m.quantity)
            && GivesNumber(t, "total", m.total) && GivesString(t, "user_email", m.userEmail)
            && GivesNumber(t, "user_id", m.userId) && GivesString(t, "user_name", m.userName)
  {
    PayloadRoundTrip(m, 0);
    MemberGives(m, 0);
    MemberGives(m, 1);
    MemberGives(m, 2);
    MemberGives(m, 3);
    MemberGives(m, 4);
    MemberGives(m, 5);
    MemberGives(m, 6);
    MemberGives(m, 7);
    MemberGives(m, 8);
    MemberGives(m, 9);
  }
}
