/** Flat JSON objects as the services print them, and what `get_json_value` finds in
    them: an independent definition of the result, by walking the fields. */
module JsonText {
  import opened Wrappers
  import opened JsonScanner

  /** A printed member value: a string by its escaped body, or a number by its text. */
  datatype Value = Str(body: string) | Num(text: string)

  datatype Field = Field(key: string, value: Value)

  const QUOTE := "\""

  function Raw(v: Value): string {
    if v.Str? then v.body else v.text
  }

  function ValueText(v: Value): string {
    if v.Str? then QUOTE + v.body + QUOTE else v.text
  }

  /** `ws` follows every colon and comma: empty for Go's encoder, one space for the
      format of json_invoice_model. */
  function FieldText(ws: string, f: Field): string {
    QUOTE + f.key + QUOTE + ":" + ws + ValueText(f.value)
  }

  /** The members, with the closing brace. */
  function Members(ws: string, fs: seq<Field>): string
    requires fs != []
    decreases |fs|, 0
  {
    FieldText(ws, fs[0]) + Following(ws, fs[1..])
  }

  function Following(ws: string, fs: seq<Field>): (t: string)
    ensures t != "" && (t[0] == ',' || t[0] == '}')
    decreases |fs|, 1
  {
    if fs == [] then "}" else "," + ws + Members(ws, fs)
  }

  function ObjectText(ws: string, fs: seq<Field>): string
    requires fs != []
  {
    "{" + Members(ws, fs)
  }

  // MARK: what may be printed

  predicate IdentChar(c: char) {
    'a' <= c <= 'z' || 'A' <= c <= 'Z' || '0' <= c <= '9' || c == '_'
  }

  predicate CleanKey(k: string) {
    0 < |k| <= 253 && forall c | c in k :: IdentChar(c)
  }

  /** Every quote in the body is escaped and no backslash is left alone (section 7 of
      RFC 8259, as far as a scanner for the closing quote can tell). */
  predicate WellEscaped(b: string) {
    if b == "" then true
    else if b[0] == '\\' then |b| > 1 && WellEscaped(b[2..])
    else b[0] != '"' && WellEscaped(b[1..])
  }

  predicate CleanNumber(s: string) {
    forall c | c in s :: '0' <= c <= '9' || c == '-'
  }

  predicate CleanFields(fs: seq<Field>) {
    forall f | f in fs ::
      && CleanKey(f.key)
      && (f.value.Str? ==> WellEscaped(f.value.body))
      && (f.value.Num? ==> CleanNumber(f.value.text))
  }

  predicate Blank(ws: string) {
    forall c | c in ws :: IsSpace(c)
  }

  // MARK: what the scanner finds

  predicate EndsWith(t: string, p: string) {
    |p| <= |t| && t[|t| - |p|..] == p
  }

  /** A string value that hides the key from the substring search: it is the key, or
      it ends with a quote followed by the key. */
  predicate Clash(v: Value, key: string) {
    v.Str? && (v.body == key || EndsWith(v.body, QUOTE + key))
  }

  /** The value of the first member called `key`, unless an earlier value clashes. */
  function Lookup(fs: seq<Field>, key: string): Option<string> {
    if fs == [] then None
    else if fs[0].key == key then Some(Raw(fs[0].value))
    else if Clash(fs[0].value, key) then None
    else Lookup(fs[1..], key)
  }

  /** No quote in `u`: no match starts there. */
  lemma {:induction false} SkipUnquoted(u: string, t: string, key: string)
    requires '"' !in u
    ensures AfterFirst(u + t, QUOTE + key + QUOTE) == AfterFirst(t, QUOTE + key + QUOTE)
  {
    if u == "" {
      assert u + t == t;
    } else {
      assert (u + t)[0] == u[0] && (u + t)[1..] == u[1..] + t;
      assert (QUOTE + key + QUOTE)[0] == '"';
      SkipUnquoted(u[1..], t, key);
    }
  }

  lemma StartsWithCons(s: string, p: string)
    requires s != "" && p != ""
    ensures StartsWith(s, p) <==> s[0] == p[0] && StartsWith(s[1..], p[1..])
  {
    if |p| <= |s| {
      assert s[..|p|] == [s[0]] + s[1..][..|p| - 1];
      assert p == [p[0]] + p[1..];
    }
  }

  lemma EndsWithCons(s: string, p: string)
    requires s != ""
    ensures EndsWith(s, p) <==> s == p || EndsWith(s[1..], p)
  {
    if |p| <= |s[1..]| {
      assert s[|s| - |p|..] == s[1..][|s[1..]| - |p|..];
    }
  }

  /** A quote starts a match exactly when the key and a quote follow it. */
  lemma {:induction false} AtQuote(t: string, key: string)
    ensures AfterFirst(QUOTE + t, QUOTE + key + QUOTE)
            == if StartsWith(t, key + QUOTE) then Some(t[|key| + 1..])
               else AfterFirst(t, QUOTE + key + QUOTE)
  {
    var p := QUOTE + key + QUOTE;
    assert p[1..] == key + QUOTE && (QUOTE + t)[1..] == t;
    StartsWithCons(QUOTE + t, p);
  }

  /** Between quotes, a quote-free name is found only if it is the key. */
  lemma {:induction false} NameMatches(name: string, t: string, key: string)
    requires '"' !in name && '"' !in key
    ensures StartsWith(name + QUOTE + t, key + QUOTE) <==> name == key
  {
    var s, p := name + QUOTE + t, key + QUOTE;
    StartsWithCons(s, p);
    if name != "" && key != "" {
      assert s[1..] == name[1..] + QUOTE + t && p[1..] == key[1..] + QUOTE;
      NameMatches(name[1..], t, key[1..]);
      assert name == [name[0]] + name[1..] && key == [key[0]] + key[1..];
    }
  }

  /** The same for an escaped body: its quotes all hide behind a backslash. */
  lemma {:induction false} BodyMatches(body: string, t: string, key: string)
    requires WellEscaped(body) && forall c | c in key :: IdentChar(c)
    ensures StartsWith(body + QUOTE + t, key + QUOTE) <==> body == key
  {
    var s, p := body + QUOTE + t, key + QUOTE;
    StartsWithCons(s, p);
    assert key != "" ==> key[0] in key;
    if body != "" && key != "" && body[0] == key[0] {
      assert s[1..] == body[1..] + QUOTE + t && p[1..] == key[1..] + QUOTE;
      BodyMatches(body[1..], t, key[1..]);
      assert body == [body[0]] + body[1..] && key == [key[0]] + key[1..];
    }
  }

  /** Inside a string value, an escaped quote is matched only when the rest of the
      value is the key; the closing quote is never the start of a match. */
  lemma {:induction false} ScanBody(body: string, t: string, key: string)
    requires WellEscaped(body) && CleanKey(key)
    requires t != "" && !IdentChar(t[0])
    ensures AfterFirst(body + QUOTE + t, QUOTE + key + QUOTE)
            == if EndsWith(body, QUOTE + key) then Some(t) else AfterFirst(t, QUOTE + key + QUOTE)
    decreases |body|
  {
    var p := QUOTE + key + QUOTE;
    if body == "" {
      assert body + QUOTE + t == QUOTE + t;
      assert key[0] in key;
      StartsWithCons(t, key + QUOTE);
      AtQuote(t, key);
    } else if body[0] != '\\' {
      ScanPlain(body, 1, t, key);
      ScanBody(body[1..], t, key);
    } else if body[1] != '"' {
      ScanPlain(body, 2, t, key);
      ScanBody(body[2..], t, key);
    } else {
      ScanEscapedQuote(body[2..], t, key);
      assert body == "\\" + QUOTE + body[2..];
      ScanBody(body[2..], t, key);
    }
  }

  /** A body that starts with an escaped quote. */
  lemma {:induction false} ScanEscapedQuote(rest: string, t: string, key: string)
    requires WellEscaped(rest) && CleanKey(key)
    ensures AfterFirst("\\" + QUOTE + rest + QUOTE + t, QUOTE + key + QUOTE)
            == if rest == key then Some(t) else AfterFirst(rest + QUOTE + t, QUOTE + key + QUOTE)
    ensures EndsWith("\\" + QUOTE + rest, QUOTE + key) <==> rest == key || EndsWith(rest, QUOTE + key)
  {
    var after := rest + QUOTE + t;
    assert "\\" + QUOTE + rest + QUOTE + t == "\\" + (QUOTE + after);
    SkipUnquoted("\\", QUOTE + after, key);
    AtQuote(after, key);
    BodyMatches(rest, t, key);
    if rest == key {
      assert after[|key| + 1..] == t;
    }
    QuotedEnd(rest, key);
  }

  lemma QuotedEnd(rest: string, key: string)
    ensures EndsWith("\\" + QUOTE + rest, QUOTE + key) <==> rest == key || EndsWith(rest, QUOTE + key)
  {
    BackslashEnd(QUOTE + rest, QUOTE + key);
    assert "\\" + (QUOTE + rest) == "\\" + QUOTE + rest;
    QuoteEnd(rest, key);
  }

  lemma QuoteEnd(rest: string, key: string)
    ensures EndsWith(QUOTE + rest, QUOTE + key) <==> rest == key || EndsWith(rest, QUOTE + key)
  {
    EndsWithCons(QUOTE + rest, QUOTE + key);
    assert (QUOTE + rest)[1..] == rest;
    assert (QUOTE + key)[1..] == key;
  }

  lemma BackslashEnd(rest: string, p: string)
    requires p != "" && p[0] != '\\'
    ensures EndsWith("\\" + rest, p) <==> EndsWith(rest, p)
  {
    EndsWithCons("\\" + rest, p);
    assert ("\\" + rest)[0] == '\\' && ("\\" + rest)[1..] == rest;
  }

  /** The first `n` bytes hold no quote, so neither a match nor the suffix starts there. */
  lemma {:induction false} ScanPlain(body: string, n: nat, t: string, key: string)
    requires 1 <= n <= 2 && n <= |body| && '"' !in body[..n]
    ensures AfterFirst(body + QUOTE + t, QUOTE + key + QUOTE)
            == AfterFirst(body[n..] + QUOTE + t, QUOTE + key + QUOTE)
    ensures EndsWith(body, QUOTE + key) <==> EndsWith(body[n..], QUOTE + key)
  {
    assert body + QUOTE + t == body[..n] + (body[n..] + QUOTE + t);
    SkipUnquoted(body[..n], body[n..] + QUOTE + t, key);
    assert body[..n][0] == body[0];
    EndsWithCons(body, QUOTE + key);
    if n == 2 {
      assert body[..n][1] == body[1..][0] && body[1..][1..] == body[2..];
      EndsWithCons(body[1..], QUOTE + key);
    }
  }

  /** A whole string value, opening quote included. */
  lemma {:induction false} ScanStringValue(body: string, t: string, key: string)
    requires WellEscaped(body) && CleanKey(key)
    requires t != "" && !IdentChar(t[0])
    ensures AfterFirst(QUOTE + body + QUOTE + t, QUOTE + key + QUOTE)
            == if Clash(Str(body), key) then Some(t) else AfterFirst(t, QUOTE + key + QUOTE)
  {
    assert QUOTE + body + QUOTE + t == QUOTE + (body + QUOTE + t);
    AtQuote(body + QUOTE + t, key);
    BodyMatches(body, t, key);
    ScanBody(body, t, key);
    if body == key {
      assert (body + QUOTE + t)[|key| + 1..] == t;
    }
  }

  /** One member: its own key is found, otherwise only a clashing value stops the search. */
  lemma {:induction false} ScanField(ws: string, f: Field, t: string, key: string)
    requires Blank(ws) && CleanFields([f]) && CleanKey(key)
    requires t != "" && !IdentChar(t[0])
    ensures AfterFirst(FieldText(ws, f) + t, QUOTE + key + QUOTE)
            == if f.key == key then Some(":" + ws + ValueText(f.value) + t)
               else if Clash(f.value, key) then Some(t)
               else AfterFirst(t, QUOTE + key + QUOTE)
  {
    assert f in [f];
    var v := ValueText(f.value) + t;
    var tail := ":" + ws + v;
    assert FieldText(ws, f) + t == QUOTE + (f.key + QUOTE + tail);
    AtQuote(f.key + QUOTE + tail, key);
    NameMatches(f.key, tail, key);
    if f.key == key {
      assert (f.key + QUOTE + tail)[|key| + 1..] == tail;
      assert tail == ":" + ws + ValueText(f.value) + t;
    } else {
      assert f.key + QUOTE + tail == f.key + (QUOTE + tail);
      SkipUnquoted(f.key, QUOTE + tail, key);
      AtQuote(tail, key);
      assert tail[0] == ':' && key[0] in key;
      StartsWithCons(tail, key + QUOTE);
      assert tail == ":" + ws + v;
      SkipUnquoted(":" + ws, v, key);
      if f.value.Str? {
        assert v == QUOTE + f.value.body + QUOTE + t;
        ScanStringValue(f.value.body, t, key);
      } else {
        SkipUnquoted(f.value.text, t, key);
      }
    }
  }

  // MARK: reading the value

  lemma {:induction false} SkipBlanks(ws: string, t: string)
    requires Blank(ws) && (t == "" || !IsSpace(t[0]))
    ensures SkipSpace(ws + t) == t
  {
    if ws == "" {
      assert ws + t == t;
    } else {
      assert (ws + t)[1..] == ws[1..] + t;
      SkipBlanks(ws[1..], t);
    }
  }

  lemma {:induction false} CopyBody(body: string, t: string)
    requires WellEscaped(body)
    ensures CopyString(body + QUOTE + t) == body
    decreases |body|
  {
    var s := body + QUOTE + t;
    if body != "" {
      if body[0] == '\\' {
        assert s[2..] == body[2..] + QUOTE + t && s[..2] == body[..2];
        CopyBody(body[2..], t);
      } else {
        assert s[1..] == body[1..] + QUOTE + t && s[..1] == body[..1];
        CopyBody(body[1..], t);
      }
    }
  }

  lemma {:induction false} CopyNumber(num: string, t: string)
    requires CleanNumber(num) && t != "" && EndsScalar(t[0])
    ensures CopyScalar(num + t) == num
  {
    if num == "" {
      assert num + t == t;
    } else {
      assert (num + t)[1..] == num[1..] + t && (num + t)[..1] == num[..1];
      assert num[0] in num && forall c | c in num[1..] :: c in num;
      CopyNumber(num[1..], t);
    }
  }

  lemma {:induction false} StringReadBack(ws: string, body: string, t: string)
    requires Blank(ws) && WellEscaped(body)
    ensures SkipSpace(ws + (QUOTE + body + QUOTE) + t) == QUOTE + (body + QUOTE + t)
    ensures CopyString(body + QUOTE + t) == body
  {
    assert ws + (QUOTE + body + QUOTE) + t == ws + (QUOTE + (body + QUOTE + t));
    SkipBlanks(ws, QUOTE + (body + QUOTE + t));
    CopyBody(body, t);
  }

  lemma {:induction false} NumberReadBack(ws: string, num: string, t: string)
    requires Blank(ws) && CleanNumber(num) && t != "" && (t[0] == ',' || t[0] == '}')
    ensures SkipSpace(ws + num + t) == num + t
    ensures CopyScalar(num + t) == num && TrimRight(num) == num && (num + t)[0] != '"'
  {
    assert ws + num + t == ws + (num + t);
    assert num != "" ==> num[0] in num && num[|num| - 1] in num && (num + t)[0] == num[0];
    SkipBlanks(ws, num + t);
    CopyNumber(num, t);
  }

  lemma {:induction false} ReadValue(ws: string, v: Value, t: string)
    requires Blank(ws) && t != "" && (t[0] == ',' || t[0] == '}')
    requires v.Str? ==> WellEscaped(v.body)
    requires v.Num? ==> CleanNumber(v.text)
    ensures ScanValue(SkipSpace(ws + ValueText(v) + t)) == Raw(v)
    ensures Copied(SkipSpace(ws + ValueText(v) + t)) == Raw(v)
  {
    if v.Str? {
      StringReadBack(ws, v.body, t);
      assert (QUOTE + (v.body + QUOTE + t))[1..] == v.body + QUOTE + t;
    } else {
      NumberReadBack(ws, v.text, t);
    }
  }

  /** `get_json_value` on a printed object is `Lookup`, for every list of fields and
      every key: the round trip when no value clashes, -1 when one does, and -1 for
      an absent key. The bytes written are the value and its terminator. */
  lemma {:induction false} ExtractIsLookup(ws: string, fs: seq<Field>, key: string)
    requires Blank(ws) && fs != [] && CleanFields(fs) && CleanKey(key)
    ensures Extract(ObjectText(ws, fs), key) == Lookup(fs, key)
    ensures Written(ObjectText(ws, fs), key)
            == match Lookup(fs, key) case None => 0 case Some(v) => |v| + 1
  {
    var p := QUOTE + key + QUOTE;
    SkipUnquoted("{", Members(ws, fs), key);
    SearchMembers(ws, fs, key);
    assert Pattern(key) == p;
  }

  /** From the text after the first match on: the colon and the start of the value. */
  function StartAfter(rest: Option<string>): Option<string> {
    if rest.None? then None
    else
      var colon := SkipSpace(rest.value);
      if colon == "" || colon[0] != ':' then None else Some(SkipSpace(colon[1..]))
  }

  /** What is scanned and copied from `start` is the value that was looked up. */
  predicate Yields(start: Option<string>, v: Option<string>) {
    if start.None? then v.None? else v == Some(ScanValue(start.value)) == Some(Copied(start.value))
  }

  lemma {:induction false} SearchMembers(ws: string, fs: seq<Field>, key: string)
    requires Blank(ws) && fs != [] && CleanFields(fs) && CleanKey(key)
    ensures Yields(StartAfter(AfterFirst(Members(ws, fs), QUOTE + key + QUOTE)), Lookup(fs, key))
  {
    var f, t := fs[0], Following(ws, fs[1..]);
    ScanField(ws, f, t, key);
    if f.key == key {
      FoundMember(ws, f.value, t);
    } else if !Clash(f.value, key) {
      SearchFollowing(ws, fs[1..], key);
      if fs[1..] != [] {
        SearchMembers(ws, fs[1..], key);
      }
    }
  }

  lemma {:induction false} FoundMember(ws: string, v: Value, t: string)
    requires Blank(ws) && t != "" && (t[0] == ',' || t[0] == '}')
    requires v.Str? ==> WellEscaped(v.body)
    requires v.Num? ==> CleanNumber(v.text)
    ensures Yields(StartAfter(Some(":" + ws + ValueText(v) + t)), Some(Raw(v)))
  {
    assert (":" + ws + ValueText(v) + t)[1..] == ws + ValueText(v) + t;
    ReadValue(ws, v, t);
  }

  lemma {:induction false} SearchFollowing(ws: string, fs: seq<Field>, key: string)
    requires Blank(ws)
    ensures AfterFirst(Following(ws, fs), QUOTE + key + QUOTE)
            == if fs == [] then None else AfterFirst(Members(ws, fs), QUOTE + key + QUOTE)
  {
    if fs == [] {
      SkipUnquoted("}", "", key);
      assert "}" + "" == "}";
      assert AfterFirst("", QUOTE + key + QUOTE) == None;
    } else {
      SkipUnquoted("," + ws, Members(ws, fs), key);
    }
  }

  /** What precedes the key decides: the value of a field is found exactly when no
      earlier value clashes. */
  lemma {:induction false} LookupAt(fs: seq<Field>, i: nat)
    requires i < |fs| && forall j | 0 <= j < i :: fs[j].key != fs[i].key
    ensures (forall j | 0 <= j < i :: !Clash(fs[j].value, fs[i].key))
            ==> Lookup(fs, fs[i].key) == Some(Raw(fs[i].value))
    ensures (exists j :: 0 <= j < i && Clash(fs[j].value, fs[i].key)) ==> Lookup(fs, fs[i].key) == None
  {
    if i > 0 && !Clash(fs[0].value, fs[i].key) {
      assert forall j | 0 <= j < i - 1 :: fs[1..][j] == fs[j + 1];
      LookupAt(fs[1..], i - 1);
    }
  }

  // MARK: white space anywhere

  /** White space before and after the colon does not matter. */
  lemma {:induction false} ExtractPastBlanks(before: string, key: string, ws: string, ws': string, v: Value, t: string)
    requires '"' !in before && CleanKey(key) && Blank(ws) && Blank(ws')
    requires t != "" && (t[0] == ',' || t[0] == '}')
    requires v.Str? ==> WellEscaped(v.body)
    requires v.Num? ==> CleanNumber(v.text)
    ensures Extract(before + (QUOTE + (key + QUOTE + (ws + (":" + (ws' + ValueText(v) + t))))), key) == Some(Raw(v))
  {
    var tail := ":" + (ws' + ValueText(v) + t);
    SkipUnquoted(before, QUOTE + (key + QUOTE + (ws + tail)), key);
    AtQuote(key + QUOTE + (ws + tail), key);
    assert (key + QUOTE + (ws + tail))[|key| + 1..] == ws + tail;
    NameMatchesKey(key, ws + tail);
    SkipBlanks(ws, tail);
    assert tail[1..] == ws' + ValueText(v) + t;
    ReadValue(ws', v, t);
  }

  lemma NameMatchesKey(key: string, t: string)
    ensures StartsWith(key + QUOTE + t, key + QUOTE)
  {
  }

  /** A key that is not followed by a colon ends the search. */
  lemma {:induction false} ExtractNeedsColon(before: string, key: string, ws: string, t: string)
    requires '"' !in before && CleanKey(key) && Blank(ws) && (t == "" || !(IsSpace(t[0]) || t[0] == ':'))
    ensures Extract(before + (QUOTE + (key + QUOTE + (ws + t))), key) == None
  {
    SkipUnquoted(before, QUOTE + (key + QUOTE + (ws + t)), key);
    AtQuote(key + QUOTE + (ws + t), key);
    assert (key + QUOTE + (ws + t))[|key| + 1..] == ws + t;
    NameMatchesKey(key, ws + t);
    SkipBlanks(ws, t);
  }

  // MARK: bodies taken from a text

  /** The string value that starts `t` has a closing quote. */
  predicate Terminated(t: string) {
    |CopyString(t)| < |t|
  }

  /** What the scanner copies from a terminated string is well escaped, so it can be
      printed between quotes again. */
  lemma {:induction false} CopiedIsWellEscaped(t: string)
    requires Terminated(t)
    ensures WellEscaped(CopyString(t)) && t[|CopyString(t)|] == '"'
    decreases |t|
  {
    if t[0] == '"' {
    } else if t[0] == '\\' && |t| > 1 {
      CopiedIsWellEscaped(t[2..]);
      assert CopyString(t)[2..] == CopyString(t[2..]);
    } else {
      CopiedIsWellEscaped(t[1..]);
      assert CopyString(t)[1..] == CopyString(t[1..]);
    }
  }
}
