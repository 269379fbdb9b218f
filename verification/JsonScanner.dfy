/** invoice-service/utils.c: `get_json_value`, which finds a quoted key by substring
    search and copies the value after it into a caller's buffer. Each `char` stands
    for one byte. */
module JsonScanner {
  import opened Wrappers

  const NUL: char := '\0'

  /** A C string: one terminator, at the end. */
  type CString = s: string | IsCString(s) witness [NUL]

  predicate IsCString(s: string) {
    s != "" && s[|s| - 1] == NUL && forall i | 0 <= i < |s| - 1 :: s[i] != NUL
  }

  /** The bytes before the terminator. */
  function Text(s: CString): string {
    s[..|s| - 1]
  }

  predicate IsSpace(c: char) {
    c == ' ' || c == '\t' || c == '\n' || c == '\r'
  }

  predicate EndsScalar(c: char) {
    c == ',' || c == '}' || c == '\n' || c == '\r' || c == ' '
  }

  // MARK: what the scan computes, on the text that remains

  predicate StartsWith(t: string, p: string) {
    |p| <= |t| && t[..|p|] == p
  }

  /** The text after the first occurrence of `p`, as `strstr` finds it. */
  function AfterFirst(t: string, p: string): (rest: Option<string>)
    ensures rest.Some? ==> |rest.value| + |p| <= |t|
  {
    if StartsWith(t, p) then Some(t[|p|..])
    else if t == "" then None
    else AfterFirst(t[1..], p)
  }

  function SkipSpace(t: string): (rest: string)
    ensures |rest| <= |t|
  {
    if t != "" && IsSpace(t[0]) then SkipSpace(t[1..]) else t
  }

  /** The bytes copied from a string value; an escaped byte is copied with its backslash. */
  function CopyString(t: string): (v: string)
    ensures |v| <= |t|
  {
    if t == "" || t[0] == '"' then ""
    else if t[0] == '\\' && |t| > 1 then t[..2] + CopyString(t[2..])
    else t[..1] + CopyString(t[1..])
  }

  function CopyScalar(t: string): (v: string)
    ensures |v| <= |t|
  {
    if t == "" || EndsScalar(t[0]) then "" else t[..1] + CopyScalar(t[1..])
  }

  function TrimRight(v: string): (r: string)
    ensures |r| <= |v|
  {
    if v != "" && (v[|v| - 1] == ' ' || v[|v| - 1] == '\t') then TrimRight(v[..|v| - 1]) else v
  }

  /** The search pattern; `pattern[256]` keeps 255 bytes of it. */
  function Pattern(key: string): (p: string)
    ensures p <= "\"" + key + "\"" && |p| == if |key| <= 253 then |key| + 2 else 255
    ensures |key| <= 253 ==> p == "\"" + key + "\""
  {
    var p := "\"" + key + "\"";
    if |p| <= 255 then p else p[..255]
  }

  /** The value's text, once the key and the colon have been passed. */
  function ValueStart(t: string, key: string): (start: Option<string>)
    ensures start.Some? ==> |start.value| < |t|
  {
    match AfterFirst(t, Pattern(key))
    case None => None
    case Some(rest) =>
      var colon := SkipSpace(rest);
      if colon == "" || colon[0] != ':' then None else Some(SkipSpace(colon[1..]))
  }

  /** The bytes copied, and the value that is left of them. */
  function Copied(v: string): string {
    if v != "" && v[0] == '"' then CopyString(v[1..]) else CopyScalar(v)
  }

  function ScanValue(v: string): string {
    if v != "" && v[0] == '"' then Copied(v) else TrimRight(Copied(v))
  }

  /** The result of `get_json_value`; None is the return code -1. */
  function Extract(t: string, key: string): Option<string> {
    match ValueStart(t, key)
    case None => None
    case Some(v) => Some(ScanValue(v))
  }

  /** How many bytes of the caller's buffer are written, terminator included. */
  function Written(t: string, key: string): (n: nat)
    ensures n <= |t|
    ensures Extract(t, key).Some? <==> n > 0
    ensures Extract(t, key).Some? ==> |Extract(t, key).value| < n
    ensures ValueStart(t, key).Some? ==> n <= |ValueStart(t, key).value| + 1
  {
    match ValueStart(t, key)
    case None => 0
    case Some(v) => |Copied(v)| + 1
  }

  // MARK: what the scans mean, character by character

  /** `p` stands at position `i`. */
  predicate OccursAt(t: string, p: string, i: nat) {
    i + |p| <= |t| && t[i..i + |p|] == p
  }

  lemma OccursLater(t: string, p: string, j: nat)
    requires t != "" && j >= 1
    ensures OccursAt(t, p, j) <==> OccursAt(t[1..], p, j - 1)
  {
    if j + |p| <= |t| {
      assert t[1..][j - 1..j - 1 + |p|] == t[j..j + |p|];
    }
  }

  /** The first occurrence is found, and nothing else. */
  lemma {:induction false} FirstOccurrence(t: string, p: string) returns (i: nat)
    ensures AfterFirst(t, p).Some? ==> OccursAt(t, p, i) && AfterFirst(t, p).value == t[i + |p|..]
    ensures AfterFirst(t, p).Some? ==> forall j | 0 <= j < i :: !OccursAt(t, p, j)
    ensures AfterFirst(t, p).None? ==> forall j | 0 <= j :: !OccursAt(t, p, j)
  {
    i := 0;
    assert OccursAt(t, p, 0) <==> StartsWith(t, p);
    if !StartsWith(t, p) && t != "" {
      var k := FirstOccurrence(t[1..], p);
      i := k + 1;
      forall j | 1 <= j ensures OccursAt(t, p, j) <==> OccursAt(t[1..], p, j - 1) {
        OccursLater(t, p, j);
      }
      if AfterFirst(t, p).Some? {
        assert t[1..][k + |p|..] == t[i + |p|..];
      }
    }
  }

  /** Leading blanks are skipped, all of them and nothing else. */
  lemma {:induction false} SkipSpaceExactly(t: string)
    ensures var r := SkipSpace(t);
            && t[|t| - |r|..] == r
            && (forall k | 0 <= k < |t| - |r| :: t[k] in {' ', '\t', '\n', '\r'})
            && (r != "" ==> r[0] !in {' ', '\t', '\n', '\r'})
  {
    if t != "" && IsSpace(t[0]) {
      SkipSpaceExactly(t[1..]);
      assert forall k | 1 <= k < |t| :: t[k] == t[1..][k - 1];
    }
  }

  /** A scalar ends at the first delimiter or at the end of the text. */
  lemma {:induction false} CopyScalarExactly(t: string)
    ensures var v := CopyScalar(t);
            && v <= t && (forall k | 0 <= k < |v| :: v[k] !in {',', '}', '\n', '\r', ' '})
            && (|v| < |t| ==> t[|v|] in {',', '}', '\n', '\r', ' '})
  {
    if t != "" && !EndsScalar(t[0]) {
      CopyScalarExactly(t[1..]);
    }
  }

  /** Trailing spaces and tabs are dropped, all of them and nothing else. */
  lemma {:induction false} TrimRightExactly(v: string)
    ensures var r := TrimRight(v);
            && r <= v && (forall k | |r| <= k < |v| :: v[k] in {' ', '\t'})
            && (r != "" ==> r[|r| - 1] !in {' ', '\t'})
  {
    if v != "" && (v[|v| - 1] == ' ' || v[|v| - 1] == '\t') {
      TrimRightExactly(v[..|v| - 1]);
    }
  }

  /** How many backslashes stand directly before position `k`. */
  function Backslashes(t: string, k: nat): nat
    requires k <= |t|
  {
    if k == 0 || t[k - 1] != '\\' then 0 else 1 + Backslashes(t, k - 1)
  }

  lemma EscapeCounts(t: string, i: nat)
    requires i + 1 < |t| && t[i] == '\\' && Backslashes(t, i) % 2 == 0
    ensures Backslashes(t, i + 1) % 2 == 1 && Backslashes(t, i + 2) % 2 == 0
  {
    assert Backslashes(t, i + 1) == 1 + Backslashes(t, i);
  }

  /** Where the copy that has come to position `i` ends. */
  function StringEnd(t: string, i: nat): (n: nat)
    requires i <= |t|
    ensures i <= n <= |t|
    decreases |t| - i
  {
    if i == |t| || t[i] == '"' then i
    else if t[i] == '\\' && i + 1 < |t| then StringEnd(t, i + 2)
    else StringEnd(t, i + 1)
  }

  lemma {:induction false} CopyEndsThere(t: string, i: nat)
    requires i <= |t|
    ensures i + |CopyString(t[i..])| == StringEnd(t, i)
    decreases |t| - i
  {
    StringStep(t, i);
    if i < |t| && t[i] != '"' {
      CopyEndsThere(t, if t[i] == '\\' && i + 1 < |t| then i + 2 else i + 1);
    }
  }

  lemma {:induction false} StringEndIsUnescaped(t: string, i: nat)
    requires i <= |t| && Backslashes(t, i) % 2 == 0
    ensures var n := StringEnd(t, i);
            && (n < |t| ==> t[n] == '"' && Backslashes(t, n) % 2 == 0)
            && forall k | i <= k < n :: t[k] == '"' ==> Backslashes(t, k) % 2 == 1
    decreases |t| - i
  {
    if i < |t| && t[i] != '"' {
      if t[i] == '\\' && i + 1 < |t| {
        EscapeCounts(t, i);
        StringEndIsUnescaped(t, i + 2);
      } else if i + 1 < |t| {
        StringEndIsUnescaped(t, i + 1);
      }
    }
  }

  /** A string value ends at the first quote with an even number of backslashes before it,
      or at the end of the text. */
  lemma {:induction false} CopyStringExactly(t: string)
    ensures var n := |CopyString(t)|;
            && CopyString(t) == t[..n]
            && (n < |t| ==> t[n] == '"' && Backslashes(t, n) % 2 == 0)
            && forall k | 0 <= k < n :: t[k] == '"' ==> Backslashes(t, k) % 2 == 1
  {
    CopiesPrefix(t);
    assert t[0..] == t;
    CopyEndsThere(t, 0);
    StringEndIsUnescaped(t, 0);
  }

  // MARK: the implementation

  /** The buffer starts with `v` and its terminator. */
  ghost predicate Holds(buffer: array<char>, v: string)
    reads buffer
  {
    |v| < buffer.Length && buffer[..|v|] == v && buffer[|v|] == NUL
  }

  method StrStr(s: CString, p: string) returns (pos: Option<nat>)
    requires NUL !in p
    ensures pos.None? <==> AfterFirst(Text(s), p).None?
    ensures pos.Some? ==> pos.value + |p| < |s|
    ensures pos.Some? ==> AfterFirst(Text(s), p) == Some(Text(s)[pos.value + |p|..])
  {
    var t := Text(s);
    var i := 0;
    while i < |t| && !StartsWith(t[i..], p)
      invariant i <= |t|
      invariant AfterFirst(t, p) == AfterFirst(t[i..], p)
    {
      assert t[i..][1..] == t[i + 1..];
      i := i + 1;
    }
    if StartsWith(t[i..], p) {
      assert t[i..][|p|..] == t[i + |p|..];
      return Some(i);
    }
    return None;
  }

  /** Skips white space from `pos`; the cursor stops at the terminator at the latest. */
  method SkipSpaces(s: CString, start: nat) returns (pos: nat)
    requires start < |s|
    ensures start <= pos < |s|
    ensures Text(s)[pos..] == SkipSpace(Text(s)[start..])
  {
    var t := Text(s);
    pos := start;
    while s[pos] != NUL && IsSpace(s[pos])
      invariant start <= pos < |s|
      invariant SkipSpace(t[pos..]) == SkipSpace(t[start..])
      decreases |s| - pos
    {
      assert t[pos..][0] == s[pos] && t[pos..][1..] == t[pos + 1..];
      pos := pos + 1;
    }
    assert pos < |t| ==> t[pos..][0] == s[pos];
  }

  /** Where the value starts, as an index into the text: the key search, the colon
      and the white space around it. */
  method FindValue(json: CString, key: string) returns (pos: Option<nat>)
    requires NUL !in key
    ensures pos.None? <==> ValueStart(Text(json), key).None?
    ensures pos.Some? ==> pos.value < |json| && ValueStart(Text(json), key) == Some(Text(json)[pos.value..])
  {
    var pattern := Pattern(key);
    var found := StrStr(json, pattern);
    if found.None? {
      return None;
    }
    var colon := SkipSpaces(json, found.value + |pattern|);
    if json[colon] != ':' {
      return None;
    }
    assert Text(json)[colon..][1..] == Text(json)[colon + 1..];
    var start := SkipSpaces(json, colon + 1);
    return Some(start);
  }

  /** Every read is at or before the terminator, every write inside the `Written`
      bytes the caller must provide; the rest of the buffer is left alone. */
  method GetJsonValue(json: CString, key: string, value: array<char>) returns (rc: int)
    requires NUL !in key
    requires Written(Text(json), key) <= value.Length
    modifies value
    ensures rc == if Extract(Text(json), key).Some? then 0 else -1
    ensures rc == 0 ==> Holds(value, Extract(Text(json), key).value)
    ensures forall k | Written(Text(json), key) <= k < value.Length :: value[k] == old(value[k])
  {
    var start := FindValue(json, key);
    if start.None? {
      return -1;
    }
    var pos := start.value;
    ghost var rest := Text(json)[pos..];
    assert pos < |json| - 1 ==> rest[0] == json[pos];
    if json[pos] == '"' {
      assert rest[1..] == Text(json)[pos + 1..];
      CopyStringValue(json, pos + 1, value);
    } else {
      CopyScalarValue(json, pos, value);
    }
    return 0;
  }

  /** How many bytes of a string value are still to be copied at `pos`. */
  ghost function Remaining(t: string, pos: nat): nat
    requires pos <= |t|
  {
    |CopyString(t[pos..])|
  }

  lemma StringStep(t: string, pos: nat)
    requires pos <= |t|
    ensures pos == |t| || t[pos] == '"' ==> Remaining(t, pos) == 0
    ensures pos < |t| && t[pos] != '"' ==>
              var unit := if t[pos] == '\\' && pos + 1 < |t| then 2 else 1;
              Remaining(t, pos) == unit + Remaining(t, pos + unit)
  {
    if pos < |t| {
      assert t[pos..][1..] == t[pos + 1..];
    }
    if pos + 1 < |t| {
      assert t[pos..][2..] == t[pos + 2..];
    }
  }

  lemma ScalarStep(t: string, pos: nat)
    requires pos < |t|
    ensures |CopyScalar(t[pos..])| == if EndsScalar(t[pos]) then 0 else 1 + |CopyScalar(t[pos + 1..])|
  {
    assert t[pos..][1..] == t[pos + 1..];
  }

  lemma StringCopied(json: CString, start: nat, value: array<char>)
    requires start < |json| && Remaining(Text(json), start) < value.Length
    requires forall k | 0 <= k < Remaining(Text(json), start) :: value[k] == json[start + k]
    requires value[Remaining(Text(json), start)] == NUL
    ensures Holds(value, CopyString(Text(json)[start..]))
  {
    CopiesPrefix(Text(json)[start..]);
    PrefixCopied(json, start, value[..], CopyString(Text(json)[start..]));
  }

  /** Copies until the next unescaped quote or the terminator. */
  method CopyStringValue(json: CString, start: nat, value: array<char>)
    requires start < |json|
    requires Remaining(Text(json), start) < value.Length
    modifies value
    ensures Holds(value, CopyString(Text(json)[start..]))
    ensures forall k | Remaining(Text(json), start) < k < value.Length :: value[k] == old(value[k])
  {
    ghost var t := Text(json);
    ghost var n := Remaining(t, start);
    var pos, out := start, 0;
    while json[pos] != NUL && json[pos] != '"'
      invariant start <= pos < |json| && out == pos - start
      invariant Remaining(t, pos) == n - out
      invariant forall k | 0 <= k < out :: value[k] == json[start + k]
      invariant forall k | n < k < value.Length :: value[k] == old(value[k])
      decreases |json| - pos
    {
      StringStep(t, pos);
      if json[pos] == '\\' && json[pos + 1] != NUL {
        value[out] := json[pos];
        pos, out := pos + 1, out + 1;
      }
      value[out] := json[pos];
      pos, out := pos + 1, out + 1;
    }
    StringStep(t, pos);
    assert out == n;
    value[out] := NUL;
    StringCopied(json, start, value);
  }

  /** Copies until a delimiter, a space or the terminator, then drops trailing blanks. */
  method CopyScalarValue(json: CString, start: nat, value: array<char>)
    requires start < |json|
    requires |CopyScalar(Text(json)[start..])| < value.Length
    modifies value
    ensures Holds(value, TrimRight(CopyScalar(Text(json)[start..])))
    ensures forall k | |CopyScalar(Text(json)[start..])| < k < value.Length :: value[k] == old(value[k])
  {
    ghost var t := Text(json);
    ghost var n := |CopyScalar(t[start..])|;
    var pos, out := start, 0;
    while json[pos] != NUL && json[pos] != ',' && json[pos] != '}' && json[pos] != '\n' && json[pos] != '\r'
      invariant start <= pos < |json| && out == pos - start
      invariant out + |CopyScalar(t[pos..])| == n
      invariant forall k | 0 <= k < out :: value[k] == json[start + k]
      invariant forall k | n < k < value.Length :: value[k] == old(value[k])
      decreases |json| - pos
    {
      ScalarStep(t, pos);
      if json[pos] == ' ' {
        break;
      }
      value[out] := json[pos];
      pos, out := pos + 1, out + 1;
    }
    if pos < |t| {
      ScalarStep(t, pos);
    }
    value[out] := NUL;
    CopiesPrefix(t[start..]);
    PrefixCopied(json, start, value[..], CopyScalar(t[start..]));
    TrimBuffer(value, out);
  }

  /** Both copies take a prefix of the text. */
  lemma {:induction false} CopiesPrefix(t: string)
    ensures CopyString(t) == t[..|CopyString(t)|]
    ensures CopyScalar(t) == t[..|CopyScalar(t)|]
    decreases |t|
  {
    if t != "" {
      CopiesPrefix(t[1..]);
      if |t| > 1 {
        CopiesPrefix(t[2..]);
      }
    }
  }

  lemma PrefixCopied(json: CString, start: nat, buffer: string, v: string)
    requires start + |v| < |json| && v == Text(json)[start..][..|v|]
    requires |v| <= |buffer| && forall k | 0 <= k < |v| :: buffer[k] == json[start + k]
    ensures buffer[..|v|] == v
  {
    forall k | 0 <= k < |v| ensures buffer[k] == v[k] {
      assert v[k] == Text(json)[start..][k];
    }
  }

  /** The trailing-space loop, from the last copied byte backwards. */
  method TrimBuffer(value: array<char>, n: nat)
    requires n < value.Length && value[n] == NUL
    modifies value
    ensures Holds(value, TrimRight(old(value[..n])))
    ensures forall k | n < k < value.Length :: value[k] == old(value[k])
  {
    ghost var w := value[..n];
    var i := n - 1;
    while i >= 0 && (value[i] == ' ' || value[i] == '\t')
      invariant -1 <= i < n && value[i + 1] == NUL
      invariant value[..i + 1] == w[..i + 1] && TrimRight(w[..i + 1]) == TrimRight(w)
      invariant forall k | n < k < value.Length :: value[k] == old(value[k])
    {
      assert w[..i + 1][..i] == w[..i] && w[..i + 1][i] == value[i];
      value[i] := NUL;
      i := i - 1;
    }
    assert i >= 0 ==> w[..i + 1][i] == value[i];
  }
}
