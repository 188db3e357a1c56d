/** Secret references inside configuration strings, and the resolver that replaces them.
    Positions count characters where the source counts bytes; everything it searches for
    is ASCII, so it cuts at the same places. */
module SecretTemplate {
  import opened Base

  type Text = string

  const URL: Text := "url"

  datatype EnvValue = Absent | NotUnicode | Present(value: Text)

  // The secrets file, and the KEEPPEEK_SECRET_* overrides that take precedence.
  datatype Vault = Vault(secrets: map<Text, Text>, env: Text -> EnvValue)

  datatype Error =
    | Malformed
    | InvalidKey(key: Text)
    | BadEnvironment(key: Text)
    | MissingKey(key: Text)
    | InvalidModifier(key: Text)

  type Resolved = Result<Text, Error>

  predicate IsUpper(c: char) { 'A' <= c <= 'Z' }
  predicate IsDigit(c: char) { '0' <= c <= '9' }

  predicate ValidKey(key: Text) {
    && |key| > 0 && (IsUpper(key[0]) || key[0] == '_')
    && forall i :: 1 <= i < |key| ==> IsUpper(key[i]) || IsDigit(key[i]) || key[i] == '_'
  }

  function Lookup(v: Vault, key: Text): (r: Resolved) {
    match v.env(key)
    case NotUnicode => Err(BadEnvironment(key))
    case Present(value) => Ok(value)
    case Absent => if key in v.secrets then Ok(v.secrets[key]) else Err(MissingKey(key))
  }

  // ---- Percent encoding, sections 2.1 and 2.3 of RFC 3986 ----------------------

  type Byte = b: int | 0 <= b < 256

  // The UTF-8 bytes of one character.
  function Utf8(c: char): (r: seq<Byte>) {
    var x := c as int;
    if x < 0x80 then [x]
    else if x < 0x800 then [0xC0 + x / 64, 0x80 + x % 64]
    else if x < 0x1_0000 then [0xE0 + x / 4096, 0x80 + x / 64 % 64, 0x80 + x % 64]
    else [0xF0 + x / 262144, 0x80 + x / 4096 % 64, 0x80 + x / 64 % 64, 0x80 + x % 64]
  }

  function Bytes(s: Text): (r: seq<Byte>) {
    if s == [] then [] else Utf8(s[0]) + Bytes(s[1..])
  }

  predicate Unreserved(b: Byte) {
    || 'A' as int <= b <= 'Z' as int || 'a' as int <= b <= 'z' as int || '0' as int <= b <= '9' as int
    || b == '-' as int || b == '.' as int || b == '_' as int || b == '~' as int
  }

  function HexDigit(n: nat): (c: char)
    requires n < 16
  {
    if n < 10 then (n + '0' as int) as char else (n - 10 + 'A' as int) as char
  }

  function EncodeByte(b: Byte): (r: Text) {
    if Unreserved(b) then [b as char] else ['%', HexDigit(b / 16), HexDigit(b % 16)]
  }

  function EncodeBytes(bs: seq<Byte>): (r: Text) {
    if bs == [] then [] else EncodeByte(bs[0]) + EncodeBytes(bs[1..])
  }

  function PercentEncode(s: Text): (r: Text) { EncodeBytes(Bytes(s)) }

  method EncodeUrlComponent(value: Text) returns (encoded: Text)
    ensures encoded == PercentEncode(value)
  {
    hide EncodeBytes, Bytes;
    encoded := [];
    var bytes := Bytes(value);
    assert bytes[0..] == bytes;
    for i := 0 to |bytes|
      invariant encoded + EncodeBytes(bytes[i..]) == EncodeBytes(bytes)
    {
      var byte := bytes[i];
      EncodeSplit(bytes, i, encoded);
      if Unreserved(byte) {
        encoded := encoded + [byte as char];
      } else {
        encoded := encoded + ['%', HexDigit(byte / 16), HexDigit(byte % 16)];
      }
    }
    EncodeSplitEnd(bytes, encoded);
  }

  lemma EncodeSplit(bytes: seq<Byte>, i: nat, done: Text)
    requires i < |bytes|
    ensures done + EncodeBytes(bytes[i..]) == done + EncodeByte(bytes[i]) + EncodeBytes(bytes[i + 1..])
  {
    assert bytes[i..][1..] == bytes[i + 1..];
  }

  lemma EncodeSplitEnd(bytes: seq<Byte>, done: Text)
    ensures done + EncodeBytes(bytes[|bytes|..]) == done
  {
  }

  function HexValue(c: char): (r: Option<nat>)
    ensures r.Some? ==> r.value < 16
  {
    if IsDigit(c) then Some(c as int - '0' as int)
    else if 'A' <= c <= 'F' then Some(c as int - 'A' as int + 10)
    else if 'a' <= c <= 'f' then Some(c as int - 'a' as int + 10)
    else None
  }

  // What any reader of a URL does: %HH is one byte, any other ASCII character is itself.
  function PercentDecode(s: Text): (r: Option<seq<Byte>>) {
    if s == [] then Some([])
    else
      var width := if s[0] == '%' then 3 else 1;
      if |s| < width then None
      else
        var tail := PercentDecode(s[width..]);
        if tail.None? then None
        else if s[0] == '%' then
          var high, low := HexValue(s[1]), HexValue(s[2]);
          if high.Some? && low.Some? then Some([16 * high.value + low.value] + tail.value) else None
        else if s[0] < 128 as char then Some([s[0] as int] + tail.value)
        else None
  }

  predicate UpperHex(c: char) { IsDigit(c) || 'A' <= c <= 'F' }

  // The unreserved characters of section 2.3.
  ghost predicate PlainInUrl(c: int) {
    (0x41 <= c <= 0x5A) || (0x61 <= c <= 0x7A) || (0x30 <= c <= 0x39) || c in {0x2D, 0x2E, 0x5F, 0x7E}
  }

  // Unreserved characters as they are, and all else as upper-case %HH triplets.
  ghost predicate WellEncoded(s: Text) {
    s == [] ||
    (if s[0] == '%' then
       && |s| >= 3 && UpperHex(s[1]) && UpperHex(s[2]) && WellEncoded(s[3..])
       && !PlainInUrl(16 * HexValue(s[1]).value + HexValue(s[2]).value)
     else PlainInUrl(s[0] as int) && WellEncoded(s[1..]))
  }

  lemma DecodeStep(b: Byte, rest: Text)
    requires PercentDecode(rest).Some? && WellEncoded(rest)
    ensures PercentDecode(EncodeByte(b) + rest) == Some([b] + PercentDecode(rest).value)
    ensures WellEncoded(EncodeByte(b) + rest)
  {
    var s := EncodeByte(b) + rest;
    if Unreserved(b) {
      assert s[1..] == rest && s[0] == b as char;
    } else {
      var high, low := b / 16, b % 16;
      assert 16 * high + low == b;
      assert s[3..] == rest && s[0] == '%' && s[1] == HexDigit(high) && s[2] == HexDigit(low);
      HexReadBack(high);
      HexReadBack(low);
      assert !PlainInUrl(16 * high + low);
      hide HexDigit, HexValue, UpperHex, Unreserved, PlainInUrl;
    }
  }

  lemma HexReadBack(n: nat)
    requires n < 16
    ensures HexValue(HexDigit(n)) == Some(n) && UpperHex(HexDigit(n))
  {
  }

  lemma {:induction false} BytesRoundTrip(bs: seq<Byte>)
    ensures PercentDecode(EncodeBytes(bs)) == Some(bs)
    ensures WellEncoded(EncodeBytes(bs))
  {
    hide EncodeByte;
    if bs != [] {
      BytesRoundTrip(bs[1..]);
      DecodeStep(bs[0], EncodeBytes(bs[1..]));
      assert bs == [bs[0]] + bs[1..];
    }
  }

  // How many bytes a UTF-8 sequence with this first byte has; zero if there is none.
  function Width(b: Byte): (n: nat) {
    if b < 0x80 then 1 else if 0xC0 <= b < 0xE0 then 2 else if 0xE0 <= b < 0xF0 then 3 else if 0xF0 <= b < 0xF8 then 4
    else 0
  }

  function Continuation(b: Byte): (r: Option<nat>) { if 0x80 <= b < 0xC0 then Some(b - 0x80) else None }

  // The number that the first bytes stand for.
  function CodePoint(bs: seq<Byte>): (r: Option<nat>)
    requires bs != [] && |bs| >= Width(bs[0])
  {
    match Width(bs[0])
    case 1 => Some(bs[0])
    case 2 => Shifted(Some(bs[0] - 0xC0), bs[1])
    case 3 => Shifted(Shifted(Some(bs[0] - 0xE0), bs[1]), bs[2])
    case 4 => Shifted(Shifted(Shifted(Some(bs[0] - 0xF0), bs[1]), bs[2]), bs[3])
    case _ => None
  }

  function Shifted(high: Option<nat>, b: Byte): (r: Option<nat>) {
    if high.None? || Continuation(b).None? then None else Some(64 * high.value + Continuation(b).value)
  }

  // Reads UTF-8.
  function DecodeUtf8(bs: seq<Byte>): (r: Option<Text>) {
    if bs == [] then Some([])
    else if Width(bs[0]) == 0 || |bs| < Width(bs[0]) then None
    else
      var x, tail := CodePoint(bs), DecodeUtf8(bs[Width(bs[0])..]);
      if x.None? || tail.None? || !(x.value < 0xD800 || 0xE000 <= x.value < 0x11_0000) then None
      else Some([x.value as char] + tail.value)
  }

  lemma Utf8ReadBack(c: char, rest: seq<Byte>)
    ensures var bs := Utf8(c) + rest;
            && bs != [] && |bs| >= Width(bs[0]) == |Utf8(c)| > 0
            && CodePoint(bs) == Some(c as int) && bs[Width(bs[0])..] == rest
  {
    var bs := Utf8(c) + rest;
    assert bs[|Utf8(c)|..] == rest;
    Sextets(c as int);
  }

  // A number from its groups of six bits.
  lemma Sextets(x: nat)
    ensures x == 64 * (x / 64) + x % 64 && x / 64 == 64 * (x / 4096) + x / 64 % 64
    ensures x / 4096 == 64 * (x / 262144) + x / 4096 % 64
  {
  }

  lemma {:induction false} Utf8RoundTrip(s: Text)
    ensures DecodeUtf8(Bytes(s)) == Some(s)
  {
    hide Utf8, CodePoint, Width;
    if s != [] {
      Utf8RoundTrip(s[1..]);
      Utf8ReadBack(s[0], Bytes(s[1..]));
      assert [s[0]] + s[1..] == s;
    }
  }

  /** `|url` output uses only unreserved characters and %HH, and decodes to the bytes of
      the secret, and those to the secret. */
  lemma PercentRoundTrip(s: Text)
    ensures PercentDecode(PercentEncode(s)) == Some(Bytes(s)) && DecodeUtf8(Bytes(s)) == Some(s)
    ensures WellEncoded(PercentEncode(s))
  {
    BytesRoundTrip(Bytes(s));
    Utf8RoundTrip(s);
  }

  // ---- The resolver ---------------------------------------------------------------

  function Prefix(): (r: Text)
    ensures |r| == 8 && r[0] == '{' && forall i :: 1 <= i < 8 ==> r[i] != '{'
  {
    "{secret:"
  }

  predicate PrefixAt(s: Text, i: int) { 0 <= i && i + 8 <= |s| && s[i..i + 8] == Prefix() }

  predicate ContainsReference(s: Text) { exists i :: 0 <= i < |s| && PrefixAt(s, i) }

  // str::find: the first occurrence, or None.
  function FindPrefix(s: Text, i: nat := 0): (r: Option<nat>)
    requires i <= |s|
    ensures r.None? ==> forall j :: i <= j ==> !PrefixAt(s, j)
    ensures r.Some? ==> i <= r.value && PrefixAt(s, r.value) && forall j :: i <= j < r.value ==> !PrefixAt(s, j)
    decreases |s| - i
  {
    if PrefixAt(s, i) then Some(i) else if i == |s| then None else FindPrefix(s, i + 1)
  }

  function FindChar(s: Text, c: char, i: nat := 0): (r: Option<nat>)
    requires i <= |s|
    ensures r.None? ==> forall j :: i <= j < |s| ==> s[j] != c
    ensures r.Some? ==> i <= r.value < |s| && s[r.value] == c && forall j :: i <= j < r.value ==> s[j] != c
    decreases |s| - i
  {
    if i == |s| then None else if s[i] == c then Some(i) else FindChar(s, c, i + 1)
  }

  // The text up to the first reference, the reference's body, and the text after it.
  datatype Cut = Plain | Unclosed(lit: Text) | Cut(lit: Text, body: Text, rest: Text)

  function NextReference(s: Text): (c: Cut)
    ensures c.Cut? ==> |c.rest| < |s|
  {
    var start := FindPrefix(s);
    if start.None? then Plain
    else
      var after := s[start.value + 8..];
      var end := FindChar(after, '}');
      if end.None? then Unclosed(s[..start.value])
      else Cut(s[..start.value], after[..end.value], after[end.value + 1..])
  }

  function Prepend(head: Text, tail: Resolved): (r: Resolved) {
    match tail
    case Ok(text) => Ok(head + text)
    case Err(e) => Err(e)
  }

  // The key and modifier of a reference's body.
  function KeyOf(body: Text): (r: (Text, Option<Text>)) {
    var bar := FindChar(body, '|');
    if bar.None? then (body, None) else (body[..bar.value], Some(body[bar.value + 1..]))
  }

  function ResolveBody(body: Text, v: Vault): (r: Resolved) {
    var (key, modifier) := KeyOf(body);
    if !ValidKey(key) then Err(InvalidKey(key))
    else
      match Lookup(v, key)
      case Err(e) => Err(e)
      case Ok(secret) =>
        if modifier.None? then Ok(secret)
        else if modifier.value == URL then Ok(PercentEncode(secret))
        else Err(InvalidModifier(key))
  }

  function Resolve(s: Text, v: Vault): (r: Resolved)
    decreases |s|
  {
    match NextReference(s)
    case Plain => Ok(s)
    case Unclosed(_) => Err(Malformed)
    case Cut(lit, body, rest) =>
      Continue(lit, ResolveBody(body, v), Resolve(rest, v))
  }

  // A literal, one replaced reference, and whatever the rest comes to.
  function Continue(lit: Text, replaced: Resolved, rest: Resolved): (r: Resolved) {
    match replaced
    case Err(e) => Err(e)
    case Ok(text) => Prepend(lit + text, rest)
  }

  lemma PrependNothing(t: Resolved)
    ensures Prepend([], t) == t
  {
    if t.Ok? { assert [] + t.value == t.value; }
  }

  lemma PrependTwice(a: Text, b: Text, t: Resolved)
    ensures Prepend(a, Prepend(b, t)) == Prepend(a + b, t)
  {
    if t.Ok? { assert a + (b + t.value) == (a + b) + t.value; }
  }

  /** The cursor loop: text is copied up to each reference, the reference is replaced, and
      the scan goes on after its closing brace. */
  method ResolveSecretReferences(value: Text, v: Vault) returns (r: Resolved)
    ensures r == Resolve(value, v)
  {
    hide Prepend, FindPrefix, FindChar, Prefix, ResolveBody, Resolve, NextReference;
    var resolved: Text := [];
    var cursor := 0;
    assert value[0..] == value;
    PrependNothing(Resolve(value, v));
    var offset := FindPrefix(value[cursor..]);
    while offset.Some?
      invariant 0 <= cursor <= |value| && offset == FindPrefix(value[cursor..])
      invariant Prepend(resolved, Resolve(value[cursor..], v)) == Resolve(value, v)
      decreases |value| - cursor
    {
      var referenceStart := cursor + offset.value;
      CutSlices(value, cursor, offset.value);
      var literal := value[cursor..referenceStart];
      var bodyStart := referenceStart + 8;
      var bodyEnd := FindChar(value[bodyStart..], '}');
      if bodyEnd.None? {
        ScanUnclosed(value[cursor..], v, resolved);
        return Err(Malformed);
      }
      BodySlices(value, bodyStart, bodyEnd.value);
      var body := value[bodyStart..bodyStart + bodyEnd.value];
      var replaced := ResolveReference(body, v);
      var next := bodyStart + bodyEnd.value + 1;
      ScanStep(value[cursor..], offset.value, bodyEnd.value, v, resolved);
      if replaced.Err? {
        return replaced;
      }
      resolved := resolved + literal + replaced.value;
      cursor := next;
      offset := FindPrefix(value[cursor..]);
    }
    ScanPlain(value[cursor..], v, resolved);
    r := Ok(resolved + value[cursor..]);
  }

  lemma ScanUnclosed(s: Text, v: Vault, done: Text)
    requires FindPrefix(s).Some? && FindChar(s[FindPrefix(s).value + 8..], '}').None?
    ensures Prepend(done, Resolve(s, v)) == Err(Malformed)
  {
  }

  lemma ScanPlain(s: Text, v: Vault, done: Text)
    requires FindPrefix(s).None?
    ensures Prepend(done, Resolve(s, v)) == Ok(done + s)
  {
  }

  lemma ScanStep(s: Text, start: nat, end: nat, v: Vault, done: Text)
    requires FindPrefix(s) == Some(start) && FindChar(s[start + 8..], '}') == Some(end)
    ensures var lit, body, rest := s[..start], s[start + 8..][..end], s[start + 8..][end + 1..];
            && (ResolveBody(body, v).Err? ==> Prepend(done, Resolve(s, v)) == ResolveBody(body, v))
            && (ResolveBody(body, v).Ok? ==>
                  Prepend(done, Resolve(s, v)) == Prepend(done + lit + ResolveBody(body, v).value, Resolve(rest, v)))
  {
    hide ResolveBody, FindPrefix, FindChar, Prefix;
    var lit, body, rest := s[..start], s[start + 8..][..end], s[start + 8..][end + 1..];
    if ResolveBody(body, v).Ok? {
      var text := ResolveBody(body, v).value;
      PrependTwice(done, lit + text, Resolve(rest, v));
      assert done + (lit + text) == done + lit + text;
    }
  }

  // One reference: its key is checked, looked up, and its modifier applied.
  method ResolveReference(body: Text, v: Vault) returns (r: Resolved)
    ensures r == ResolveBody(body, v)
  {
    hide PercentEncode, ValidKey, FindChar;
    var (key, modifier) := KeyOf(body);
    if !ValidKey(key) {
      return Err(InvalidKey(key));
    }
    r := Lookup(v, key);
    if r.Err? || modifier.None? {
      return;
    }
    if modifier.value != URL {
      return Err(InvalidModifier(key));
    }
    var encoded := EncodeUrlComponent(r.value);
    r := Ok(encoded);
  }

  // What the cursor's slices are in terms of the remaining text.
  lemma CutSlices(value: Text, cursor: nat, offset: nat)
    requires cursor <= |value| && FindPrefix(value[cursor..]) == Some(offset)
    ensures var s, start := value[cursor..], cursor + offset;
            start + 8 <= |value| && value[cursor..start] == s[..offset] && value[start + 8..] == s[offset + 8..]
  {
    hide FindPrefix, Prefix;
    var s, start := value[cursor..], cursor + offset;
    assert PrefixAt(s, offset);
  }

  lemma BodySlices(value: Text, start: nat, n: nat)
    requires start <= |value| && n < |value[start..]|
    ensures value[start..start + n] == value[start..][..n]
    ensures value[start + n + 1..] == value[start..][n + 1..]
  {
  }

  // ---- Templates: what the text means ------------------------------------------------

  datatype Segment = Literal(text: Text) | Reference(key: Text, url: bool)

  function Body(seg: Segment): (r: Text)
    requires seg.Reference?
  {
    if seg.url then seg.key + ['|'] + URL else seg.key
  }

  function Print(seg: Segment): (r: Text) {
    if seg.Literal? then seg.text else Prefix() + Body(seg) + ['}']
  }

  function PrintAll(ts: seq<Segment>): (r: Text) {
    if ts == [] then [] else Print(ts[0]) + PrintAll(ts[1..])
  }

  function Evaluate(seg: Segment, v: Vault): (r: Resolved) {
    match seg
    case Literal(text) => Ok(text)
    case Reference(key, url) =>
      match Lookup(v, key)
      case Err(e) => Err(e)
      case Ok(secret) => Ok(if url then PercentEncode(secret) else secret)
  }

  // Left to right, stopping at the first key that cannot be found.
  function EvaluateAll(ts: seq<Segment>, v: Vault): (r: Resolved) {
    if ts == [] then Ok([])
    else
      match Evaluate(ts[0], v)
      case Err(e) => Err(e)
      case Ok(text) => Prepend(text, EvaluateAll(ts[1..], v))
  }

  // Literals hold no reference and are never adjacent; keys are valid.
  predicate Normal(ts: seq<Segment>) {
    ts == [] ||
    (match ts[0]
     case Literal(text) => !ContainsReference(text) && (|ts| == 1 || ts[1].Reference?) && Normal(ts[1..])
     case Reference(key, _) => ValidKey(key) && Normal(ts[1..]))
  }

  // `{` opens the prefix and occurs nowhere else in it, so an occurrence cannot begin
  // inside a literal and end inside the reference that follows.
  lemma NoStraddle(lit: Text, rest: Text)
    requires !ContainsReference(lit)
    ensures FindPrefix(lit + Prefix() + rest) == Some(|lit|)
  {
    hide Prefix, FindPrefix;
    var s := lit + Prefix() + rest;
    assert s[|lit|..|lit| + 8] == Prefix();
    assert PrefixAt(s, |lit|);
    forall j | 0 <= j < |lit| ensures !PrefixAt(s, j) {
      if j + 8 <= |lit| {
        assert lit[j..j + 8] == s[j..j + 8];
        assert !PrefixAt(lit, j);
      } else {
        assert s[|lit|] == Prefix()[0];
        assert s[j..j + 8][|lit| - j] == s[|lit|];
      }
    }
  }

  lemma FirstBrace(body: Text, rest: Text)
    requires '}' !in body
    ensures FindChar(body + ['}'] + rest, '}') == Some(|body|)
  {
    hide FindChar;
    var after := body + ['}'] + rest;
    assert after[|body|] == '}';
    forall j | 0 <= j < |body| ensures after[j] != '}' { assert after[j] in body; }
  }

  // A text cut at a reference is cut there and nowhere else.
  lemma CutIs(lit: Text, body: Text, rest: Text)
    requires !ContainsReference(lit) && '}' !in body
    ensures NextReference(lit + Prefix() + (body + ['}'] + rest)) == Cut(lit, body, rest)
  {
    hide Prefix, FindPrefix, FindChar, ContainsReference;
    var after := body + ['}'] + rest;
    NoStraddle(lit, after);
    FirstBrace(body, rest);
    assert after[..|body|] == body && after[|body| + 1..] == rest;
    var s := lit + Prefix() + after;
    assert s[..|lit|] == lit && s[|lit| + 8..] == after;
  }

  lemma CutParts(s: Text)
    requires NextReference(s).Cut?
    ensures var c := NextReference(s);
            && s == c.lit + Prefix() + c.body + ['}'] + c.rest
            && !ContainsReference(c.lit)
  {
    hide Prefix, FindPrefix, FindChar;
    var c := NextReference(s);
    var n := FindPrefix(s).value;
    var after := s[n + 8..];
    assert s == s[..n] + s[n..n + 8] + after;
    var m := FindChar(after, '}').value;
    assert after == after[..m] + [after[m]] + after[m + 1..];
    forall i | 0 <= i < |c.lit| ensures !PrefixAt(c.lit, i) {
      if i + 8 <= n {
        assert c.lit[i..i + 8] == s[i..i + 8];
        assert !PrefixAt(s, i);
      }
    }
  }

  // The body of a printed reference is read back as the same key and modifier.
  lemma BodyReadBack(seg: Segment, v: Vault)
    requires seg.Reference? && ValidKey(seg.key)
    ensures ResolveBody(Body(seg), v) == Evaluate(seg, v)
    ensures '}' !in Body(seg)
  {
    hide PercentEncode, FindChar;
    var body := Body(seg);
    var bar := FindChar(body, '|');
    forall i | 0 <= i < |seg.key| ensures seg.key[i] != '|' && seg.key[i] != '}' { }
    if seg.url {
      assert body[|seg.key|] == '|';
      assert bar == Some(|seg.key|);
      assert body[..|seg.key|] == seg.key && body[|seg.key| + 1..] == URL;
    } else {
      assert bar == None;
    }
  }

  // One literal, possibly empty, and the reference after it.
  lemma ResolveStep(lit: Text, seg: Segment, rest: Text, v: Vault)
    requires !ContainsReference(lit) && seg.Reference? && ValidKey(seg.key)
    ensures Resolve(lit + Print(seg) + rest, v) == Continue(lit, Evaluate(seg, v), Resolve(rest, v))
  {
    hide ValidKey, ContainsReference, NextReference, ResolveBody, Evaluate, Body, Prefix, Prepend;
    BodyReadBack(seg, v);
    CutIs(lit, Body(seg), rest);
    assert lit + Print(seg) + rest == lit + Prefix() + (Body(seg) + ['}'] + rest);
  }

  lemma PlainResolves(s: Text, v: Vault)
    requires !ContainsReference(s)
    ensures Resolve(s, v) == Ok(s)
  {
  }

  /** Resolving printed text evaluates the template it came from: each secret's text goes
      in as it is and is never scanned again. */
  lemma {:induction false} ResolvesTemplate(ts: seq<Segment>, v: Vault)
    requires Normal(ts)
    ensures Resolve(PrintAll(ts), v) == EvaluateAll(ts, v)
  {
    hide ValidKey, ContainsReference, Evaluate, Prepend, Resolve, Print;
    if ts == [] {
      NoReferenceInNothing();
      PlainResolves([], v);
    } else if ts[0].Reference? {
      ResolvesTemplate(ts[1..], v);
      ReferenceFirst(ts, v);
    } else {
      LiteralFirst(ts, v);
      if |ts| > 1 { ResolvesTemplate(ts[2..], v); }
    }
  }

  lemma NoReferenceInNothing()
    ensures !ContainsReference([])
  {
  }

  lemma ReferenceFirst(ts: seq<Segment>, v: Vault)
    requires Normal(ts) && ts != [] && ts[0].Reference?
    requires Resolve(PrintAll(ts[1..]), v) == EvaluateAll(ts[1..], v)
    ensures Resolve(PrintAll(ts), v) == EvaluateAll(ts, v)
  {
    hide ValidKey, ContainsReference, Resolve, Print, Evaluate, Prepend;
    var rest := PrintAll(ts[1..]);
    NoReferenceInNothing();
    ResolveStep([], ts[0], rest, v);
    assert [] + Print(ts[0]) + rest == Print(ts[0]) + rest;
    if Evaluate(ts[0], v).Ok? { assert [] + Evaluate(ts[0], v).value == Evaluate(ts[0], v).value; }
  }

  lemma LiteralFirst(ts: seq<Segment>, v: Vault)
    requires Normal(ts) && ts != [] && ts[0].Literal?
    ensures |ts| > 1 ==> Normal(ts[2..])
    ensures (|ts| > 1 ==> Resolve(PrintAll(ts[2..]), v) == EvaluateAll(ts[2..], v)) ==>
            Resolve(PrintAll(ts), v) == EvaluateAll(ts, v)
  {
    hide ValidKey, ContainsReference, Resolve;
    var lit := ts[0].text;
    if |ts| == 1 {
      assert ts[1..] == [];
      assert PrintAll(ts) == lit + [] == lit;
      PlainResolves(lit, v);
    } else {
      var seg, rest := ts[1], PrintAll(ts[2..]);
      assert ts[1..][1..] == ts[2..];
      assert PrintAll(ts) == lit + (Print(seg) + rest) == lit + Print(seg) + rest;
      ResolveStep(lit, seg, rest, v);
      if Evaluate(seg, v).Ok? { PrependTwice(lit, Evaluate(seg, v).value, EvaluateAll(ts[2..], v)); }
    }
  }

  // ---- One reference, spelled out ---------------------------------------------------------

  // Upper-case letters, digits and underscores, and no digit first.
  ghost predicate KeyShape(key: Text) {
    && key != [] && !('0' <= key[0] <= '9')
    && forall c :: c in key ==> 'A' <= c <= 'Z' || '0' <= c <= '9' || c == '_'
  }

  ghost function Spelled(key: Text, modifier: Option<Text>): (r: Text) {
    key + if modifier.Some? then "|" + modifier.value else []
  }

  // What a reference stands for: an override wins over the file, and the first thing wrong is
  // what is reported.
  ghost predicate StandsFor(key: Text, modifier: Option<Text>, v: Vault, out: Resolved) {
    if !KeyShape(key) then out == Err(InvalidKey(key))
    else if v.env(key) == NotUnicode then out == Err(BadEnvironment(key))
    else if v.env(key) == Absent && key !in v.secrets then out == Err(MissingKey(key))
    else if modifier.Some? && modifier.value != "url" then out == Err(InvalidModifier(key))
    else
      var secret := if v.env(key).Present? then v.env(key).value else v.secrets[key];
      out == Ok(if modifier.Some? then PercentEncode(secret) else secret)
  }

  lemma KeyShapeIs(key: Text)
    ensures ValidKey(key) <==> KeyShape(key)
  {
    if ValidKey(key) {
      forall c | c in key ensures 'A' <= c <= 'Z' || '0' <= c <= '9' || c == '_' {
        var i :| 0 <= i < |key| && key[i] == c;
      }
    }
    if KeyShape(key) {
      assert forall i :: 0 <= i < |key| ==> key[i] in key;
    }
  }

  lemma BodyStandsFor(key: Text, modifier: Option<Text>, v: Vault)
    requires '|' !in key
    ensures StandsFor(key, modifier, v, ResolveBody(Spelled(key, modifier), v))
  {
    hide PercentEncode, FindChar, ValidKey, KeyShape;
    KeyShapeIs(key);
    var body := Spelled(key, modifier);
    var bar := FindChar(body, '|');
    forall i | 0 <= i < |key| ensures body[i] != '|' { assert body[i] in key; }
    if modifier.Some? {
      assert body[|key|] == '|' && bar == Some(|key|);
      assert body[..|key|] == key && body[|key| + 1..] == modifier.value;
    } else {
      assert body == key && bar == None;
    }
  }

  /** A text with a reference: the text before it, what it stands for, and the rest resolved;
      or the first error from the left. */
  lemma ReferenceMeans(lit: Text, key: Text, modifier: Option<Text>, rest: Text, v: Vault) returns (out: Resolved)
    requires !ContainsReference(lit) && '|' !in key && '}' !in Spelled(key, modifier)
    ensures StandsFor(key, modifier, v, out)
    ensures Resolve(lit + "{secret:" + Spelled(key, modifier) + "}" + rest, v) ==
            if out.Err? then out else if Resolve(rest, v).Err? then Resolve(rest, v)
            else Ok(lit + out.value + Resolve(rest, v).value)
  {
    hide ContainsReference, NextReference, ResolveBody, Spelled, StandsFor;
    var body := Spelled(key, modifier);
    out := ResolveBody(body, v);
    BodyStandsFor(key, modifier, v);
    CutIs(lit, body, rest);
    assert lit + "{secret:" + body + "}" + rest == lit + Prefix() + (body + ['}'] + rest);
  }

  /** A reference that is not closed is an error, whatever its key. */
  lemma UnclosedFails(lit: Text, after: Text, v: Vault)
    requires !ContainsReference(lit) && '}' !in after
    ensures Resolve(lit + "{secret:" + after, v) == Err(Malformed)
  {
    hide ContainsReference, FindPrefix, FindChar;
    NoStraddle(lit, after);
    var s := lit + Prefix() + after;
    assert s[|lit| + 8..] == after;
  }

  // The template behind any text that resolves.
  lemma {:induction false} TemplateOf(s: Text, v: Vault) returns (ts: seq<Segment>)
    requires Resolve(s, v).Ok?
    ensures Normal(ts) && PrintAll(ts) == s
    decreases |s|
  {
    hide ValidKey, ContainsReference, Prefix, ResolveBody, NextReference, Normal, Body;
    var c := NextReference(s);
    if c.Plain? {
      ts := [Literal(s)];
      PlainHasNone(s);
      PlainTemplate(s);
    } else {
      CutParts(s);
      var seg := BodySegment(c.body, v);
      var tail := TemplateOf(c.rest, v);
      ts := [Literal(c.lit), seg] + tail;
      BuildTemplate(c.lit, seg, tail);
    }
  }

  lemma BuildTemplate(lit: Text, seg: Segment, tail: seq<Segment>)
    requires !ContainsReference(lit) && seg.Reference? && ValidKey(seg.key) && Normal(tail)
    ensures Normal([Literal(lit), seg] + tail)
    ensures PrintAll([Literal(lit), seg] + tail) == lit + Prefix() + Body(seg) + ['}'] + PrintAll(tail)
  {
    hide ValidKey, ContainsReference, Prefix, Body;
    var ts := [Literal(lit), seg] + tail;
    assert ts[1..] == [seg] + tail && ts[1..][1..] == tail;
  }

  lemma PlainTemplate(s: Text)
    requires !ContainsReference(s)
    ensures Normal([Literal(s)]) && PrintAll([Literal(s)]) == s
  {
    assert [Literal(s)][1..] == [];
    assert PrintAll([Literal(s)]) == s + [];
  }

  lemma PlainHasNone(s: Text)
    requires NextReference(s).Plain?
    ensures !ContainsReference(s)
  {
  }

  lemma BodySegment(body: Text, v: Vault) returns (seg: Segment)
    requires ResolveBody(body, v).Ok?
    ensures seg.Reference? && ValidKey(seg.key) && Body(seg) == body
  {
    var (key, modifier) := KeyOf(body);
    seg := Reference(key, modifier.Some?);
    if modifier.Some? { assert body == key + ['|'] + modifier.value; }
  }

  /** Exactly the texts that print a normal template with findable keys resolve, and to
      nothing but the template's value. */
  lemma {:induction false} ResolveIsEvaluate(s: Text, v: Vault, out: Text)
    ensures Resolve(s, v) == Ok(out) <==>
            exists ts :: Normal(ts) && PrintAll(ts) == s && EvaluateAll(ts, v) == Ok(out)
  {
    hide Resolve, Normal, PrintAll, EvaluateAll;
    if Resolve(s, v) == Ok(out) {
      var ts := TemplateOf(s, v);
      ResolvesTemplate(ts, v);
    }
    if ts :| Normal(ts) && PrintAll(ts) == s && EvaluateAll(ts, v) == Ok(out) {
      ResolvesTemplate(ts, v);
    }
  }

  // ---- Which keys a text needs -----------------------------------------------------------

  function RefKeys(s: Text): (r: set<Text>)
    decreases |s|
  {
    var c := NextReference(s);
    if c.Cut? then {KeyOf(c.body).0} + RefKeys(c.rest) else {}
  }

  predicate Found(v: Vault, key: Text) { Lookup(v, key).Ok? }

  // A text that resolves under one vault resolves under another exactly when the other
  // finds every key the text names.
  lemma {:induction false} ResolvesWhenFound(s: Text, v: Vault, w: Vault)
    requires Resolve(s, v).Ok?
    ensures Resolve(s, w).Ok? <==> forall k :: k in RefKeys(s) ==> Found(w, k)
    decreases |s|
  {
    hide PercentEncode, NextReference, ValidKey, KeyOf;
    var c := NextReference(s);
    if c.Cut? {
      ResolvesWhenFound(c.rest, v, w);
      assert ResolveBody(c.body, v).Ok?;
      assert ResolveBody(c.body, w).Ok? <==> Found(w, KeyOf(c.body).0);
      assert Resolve(s, w).Ok? <==> ResolveBody(c.body, w).Ok? && Resolve(c.rest, w).Ok?;
    }
  }
}
