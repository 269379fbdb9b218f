/** Every printed flat object, and every array of them, is JSON, and a reader that follows
    the standard gets back exactly its members. */
module PrintedJson {
  import opened JsonReader
  import opened JsonScanner
  import opened JsonText
  import opened Numbers
  import opened Wrappers

  /** A body without raw control characters. */
  predicate Printable(body: string) {
    forall c | c in body :: c >= ' '
  }

  /** What a reader accepts as a member value. */
  ghost predicate Readable(v: Value) {
    match v
    case Str(body) => WellEscaped(body) && Printable(body)
    case Num(text) => exists n :: text == Dec(n)
  }

  ghost predicate ReadableFields(fs: seq<Field>) {
    forall f | f in fs :: CleanKey(f.key) && Readable(f.value)
  }

  // MARK: values

  lemma {:induction false} ReadBodyOf(body: string, t: string)
    requires WellEscaped(body) && Printable(body)
    ensures ReadBody(body + QUOTE + t) == Read(body, t)
    decreases |body|
  {
    var s := body + QUOTE + t;
    if body == "" {
      assert s == QUOTE + t && s[1..] == t;
    } else {
      var n := if body[0] == '\\' then 2 else 1;
      assert s[0] == body[0] && body[0] in body && forall c | c in body[n..] :: c in body;
      assert s[n..] == body[n..] + QUOTE + t && s[..n] == body[..n];
      ReadBodyOf(body[n..], t);
      assert body == body[..n] + body[n..];
    }
  }

  lemma {:induction false} IdentIsBody(k: string)
    requires forall c | c in k :: IdentChar(c)
    ensures WellEscaped(k) && Printable(k)
  {
    if k != "" {
      assert k[0] in k;
      IdentIsBody(k[1..]);
    }
  }

  lemma {:induction false} DigitsOf(d: string, t: string)
    requires (forall c | c in d :: IsDigit(c)) && (t == "" || !IsDigit(t[0]))
    ensures LeadingDigits(d + t) == d
  {
    if d == "" {
      assert d + t == t;
    } else {
      assert d[0] in d && (d + t)[1..] == d[1..] + t && (d + t)[..1] == d[..1];
      DigitsOf(d[1..], t);
    }
  }

  lemma {:induction false} NoLeadingZero(n: nat)
    ensures n > 0 ==> DecNat(n)[0] != '0'
    ensures |DecNat(n)| > 1 ==> DecNat(n)[0] != '0'
  {
    if n >= 10 {
      NoLeadingZero(n / 10);
    }
  }

  lemma {:induction false} ReadIntegerOf(n: int, t: string)
    requires t == "" || !IsDigit(t[0])
    ensures ReadInteger(Dec(n) + t) == Read(Dec(n), t)
  {
    var m := if n < 0 then -n else n;
    var d := DecNat(m);
    assert d[0] in d && IsDigit(d[0]);
    DigitsOf(d, t);
    NoLeadingZero(m);
    if n < 0 {
      SignedInteger(d, t);
    } else {
      PlainInteger(d, t);
    }
  }

  lemma PlainInteger(d: string, t: string)
    requires LeadingDigits(d + t) == d && d != "" && IsDigit(d[0]) && (|d| > 1 ==> d[0] != '0')
    ensures ReadInteger(d + t) == Read(d, t)
  {
    assert (d + t)[0] == d[0] && (d + t)[0..] == d + t && (d + t)[..|d|] == d && (d + t)[|d|..] == t;
  }

  lemma SignedInteger(d: string, t: string)
    requires LeadingDigits(d + t) == d && d != "" && (|d| > 1 ==> d[0] != '0')
    ensures ReadInteger("-" + d + t) == Read("-" + d, t)
  {
    var s := "-" + d + t;
    assert s[1..] == d + t && s[..1 + |d|] == "-" + d && s[1 + |d|..] == t;
  }

  lemma {:induction false} ReadScalarOf(v: Value, t: string)
    requires Readable(v) && t != "" && (t[0] == ',' || t[0] == '}')
    ensures ReadScalar(ValueText(v) + t) == Read(v, t)
  {
    if v.Str? {
      assert ValueText(v) + t == QUOTE + (v.body + QUOTE + t);
      assert (QUOTE + (v.body + QUOTE + t))[1..] == v.body + QUOTE + t;
      ReadBodyOf(v.body, t);
    } else {
      var n :| v.text == Dec(n);
      assert Dec(n)[0] in Dec(n);
      assert (ValueText(v) + t)[0] == Dec(n)[0];
      ReadIntegerOf(n, t);
    }
  }

  // MARK: members

  lemma {:induction false} SkipWsOf(ws: string, t: string)
    requires Blank(ws) && (t == "" || !IsSpace(t[0]))
    ensures SkipWs(ws + t) == t
  {
    if ws == "" {
      assert ws + t == t;
    } else {
      assert ws[0] in ws && (ws + t)[0] == ws[0] && (ws + t)[1..] == ws[1..] + t;
      SkipWsOf(ws[1..], t);
    }
  }

  lemma ValueStarts(v: Value, t: string)
    requires Readable(v)
    ensures ValueText(v) + t != "" && !IsSpace((ValueText(v) + t)[0])
  {
    if v.Num? {
      var n :| v.text == Dec(n);
      assert Dec(n)[0] in Dec(n) && (Dec(n) + t)[0] == Dec(n)[0];
    }
  }

  lemma {:induction false} TokenOf(c: char, ws: string, t: string)
    requires Blank(ws) && !IsSpace(c) && (t == "" || !IsSpace(t[0]))
    ensures Token([c] + ws + t, c) == Some(t)
  {
    var s := [c] + ws + t;
    assert SkipWs(s) == s && s[1..] == ws + t;
    SkipWsOf(ws, t);
  }

  lemma {:induction false} ReadKeyOf(key: string, tail: string)
    requires CleanKey(key)
    ensures ReadString(QUOTE + key + QUOTE + tail) == Read(key, tail)
  {
    var s := QUOTE + key + QUOTE + tail;
    assert s[1..] == key + QUOTE + tail;
    IdentIsBody(key);
    ReadBodyOf(key, tail);
  }

  lemma {:induction false} ReadMemberOf(ws: string, f: Field, t: string)
    requires Blank(ws) && CleanKey(f.key) && Readable(f.value) && t != "" && (t[0] == ',' || t[0] == '}')
    ensures ReadMember(FieldText(ws, f) + t) == Read(f, t)
  {
    var v := ValueText(f.value) + t;
    assert FieldText(ws, f) + t == QUOTE + f.key + QUOTE + ([':'] + ws + v);
    ReadKeyOf(f.key, [':'] + ws + v);
    ValueStarts(f.value, t);
    TokenOf(':', ws, v);
    ReadScalarOf(f.value, t);
  }

  lemma MembersStart(ws: string, fs: seq<Field>, t: string)
    requires fs != []
    ensures (Members(ws, fs) + t)[0] == '"'
    ensures Members(ws, fs) + t == FieldText(ws, fs[0]) + (Following(ws, fs[1..]) + t)
  {
  }

  /** What follows a member: the closing brace, or a comma and the next members. */
  lemma {:induction false} FollowingOf(ws: string, fs: seq<Field>, t: string)
    requires Blank(ws)
    ensures var u := Following(ws, fs) + t;
            && SkipWs(u) == u && u != ""
            && if fs == [] then u[0] == '}' && u[1..] == t
               else u[0] == ',' && SkipWs(u[1..]) == Members(ws, fs) + t
  {
    var u := Following(ws, fs) + t;
    if fs == [] {
      assert u[1..] == t;
    } else {
      assert u[1..] == ws + (Members(ws, fs) + t);
      MembersStart(ws, fs, t);
      SkipWsOf(ws, Members(ws, fs) + t);
    }
  }

  lemma {:induction false} ReadMembersOf(ws: string, fs: seq<Field>, t: string)
    requires Blank(ws) && fs != [] && ReadableFields(fs)
    ensures ReadMembers(Members(ws, fs) + t) == Read(fs, t)
    decreases |fs|
  {
    assert fs[0] in fs && fs == [fs[0]] + fs[1..];
    MembersStart(ws, fs, t);
    FollowingOf(ws, fs[1..], t);
    ReadMemberOf(ws, fs[0], Following(ws, fs[1..]) + t);
    if fs[1..] == [] {
      assert fs == [fs[0]];
    } else {
      ReadMembersOf(ws, fs[1..], t);
      assert ReadMembers(Members(ws, fs[1..]) + t) == Read(fs[1..], t);
    }
  }

  /** A printed object is read back as its members. */
  lemma {:induction false} ReadObjectOf(ws: string, fs: seq<Field>, t: string)
    requires Blank(ws) && fs != [] && ReadableFields(fs)
    ensures ReadObject(ObjectText(ws, fs) + t) == Read(fs, t)
  {
    var inner := Members(ws, fs) + t;
    assert ObjectText(ws, fs) + t == "{" + inner && ("{" + inner)[1..] == inner;
    MembersStart(ws, fs, t);
    assert SkipWs(inner) == inner;
    ReadMembersOf(ws, fs, t);
    ReadBraced(inner);
  }

  lemma ReadBraced(inner: string)
    requires SkipWs(inner) == inner
    ensures ReadObject("{" + inner) == ReadMembers(inner)
  {
    assert ("{" + inner)[1..] == inner;
  }
}
