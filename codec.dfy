/** The correlation id carried on every interactive reply: `createCustomId`
    turns an object into `key:encodeURIComponent(value)` pairs joined by `|`,
    `parseCustomId` splits such a string back into an object. */
module CorrelationId {
  import opened Wrappers
  import opened Text

  /** The `URIError` that `decodeURIComponent` throws on a malformed escape. */
  datatype CodecError = UriError

  /** One own property of the object given to `createCustomId`, in insertion
      order; None stands for a `null` or `undefined` value. */
  datatype Field = Field(key: string, value: Option<string>)

  predicate IsAscii(s: string) {
    forall k :: 0 <= k < |s| ==> s[k] as int < 0x80
  }

  /** The characters `encodeURIComponent` leaves alone. */
  predicate IsUnreserved(c: char) {
    ('A' <= c <= 'Z') || ('a' <= c <= 'z') || ('0' <= c <= '9')
    || c == '-' || c == '_' || c == '.' || c == '!' || c == '~'
    || c == '*' || c == '\'' || c == '(' || c == ')'
  }

  /** `encodeURIComponent` writes escapes with upper-case hexadecimal digits. */
  const HexDigits: string := "0123456789ABCDEF"

  predicate IsUpperHex(c: char) {
    ('0' <= c <= '9') || ('A' <= c <= 'F')
  }

  /** The characters that can occur in the output of `encodeURIComponent`. */
  predicate IsUriChar(c: char) {
    IsUnreserved(c) || c == '%' || IsUpperHex(c)
  }

  /** The value of a hexadecimal digit of either case, as `decodeURIComponent` reads it. */
  function HexValue(c: char): (v: Option<nat>)
    ensures v.Some? ==> v.value < 16
    ensures v.None? <==> !(('0' <= c <= '9') || ('A' <= c <= 'F') || ('a' <= c <= 'f'))
  {
    if '0' <= c <= '9' then Some(c as int - '0' as int)
    else if 'A' <= c <= 'F' then Some(c as int - 'A' as int + 10)
    else if 'a' <= c <= 'f' then Some(c as int - 'a' as int + 10)
    else None
  }

  lemma HexValueOfDigit(n: nat)
    requires n < 16
    ensures IsUpperHex(HexDigits[n])
    ensures HexValue(HexDigits[n]) == Some(n)
  {
  }

  /** The UTF-8 encoding of one Unicode scalar value. */
  function Utf8(c: char): (bytes: seq<nat>)
    ensures 1 <= |bytes| <= 4
    ensures forall i :: 0 <= i < |bytes| ==> bytes[i] < 0x100
    ensures c as int < 0x80 ==> bytes == [c as int]
    ensures c as int >= 0x80 ==> forall i :: 0 <= i < |bytes| ==> bytes[i] >= 0x80
  {
    var n := c as int;
    if n < 0x80 then [n]
    else if n < 0x800 then [0xC0 + n / 0x40, 0x80 + n % 0x40]
    else if n < 0x10000 then [0xE0 + n / 0x1000, 0x80 + (n / 0x40) % 0x40, 0x80 + n % 0x40]
    else [0xF0 + n / 0x40000, 0x80 + (n / 0x1000) % 0x40, 0x80 + (n / 0x40) % 0x40, 0x80 + n % 0x40]
  }

  /** `%XX` for each byte. */
  function PercentBytes(bytes: seq<nat>): (r: string)
    requires forall i :: 0 <= i < |bytes| ==> bytes[i] < 0x100
    ensures |r| == 3 * |bytes|
    ensures forall k :: 0 <= k < |r| ==> r[k] == '%' || IsUpperHex(r[k])
  {
    if bytes == [] then ""
    else
      HexValueOfDigit(bytes[0] / 16);
      HexValueOfDigit(bytes[0] % 16);
      ['%', HexDigits[bytes[0] / 16], HexDigits[bytes[0] % 16]] + PercentBytes(bytes[1..])
  }

  function EncodeChar(c: char): (r: string)
    ensures IsUnreserved(c) ==> r == [c]
    ensures !IsUnreserved(c) ==> |r| >= 3 && r[0] == '%'
    ensures forall k :: 0 <= k < |r| ==> IsUriChar(r[k])
  {
    if IsUnreserved(c) then [c] else PercentBytes(Utf8(c))
  }

  /** `encodeURIComponent(s)`. Every character of the result is unreserved,
      `%` or a hexadecimal digit, so neither separator `:` nor `|` occurs in it. */
  function EncodeUriComponent(s: string): (r: string)
    ensures |r| >= |s|
    ensures forall k :: 0 <= k < |r| ==> IsUriChar(r[k])
    ensures ':' !in r && '|' !in r
  {
    if s == [] then ""
    else
      var head, tail := EncodeChar(s[0]), EncodeUriComponent(s[1..]);
      assert forall k :: 0 <= k < |head + tail| ==> (head + tail)[k] == if k < |head| then head[k] else tail[k - |head|];
      head + tail
  }

  /** `decodeURIComponent(s)` for escapes of ASCII characters: `%XX` with a
      value below 0x80 becomes that character, other characters are kept, and
      a `%` that does not start an ASCII escape is an error. */
  function DecodeUriComponent(s: string): (r: Result<string, CodecError>)
    ensures '%' !in s ==> r == Ok(s)
    ensures r.Ok? ==> |r.value| <= |s|
  {
    if s == [] then Ok("")
    else if s[0] == '%' then
      if |s| >= 3 && HexValue(s[1]).Some? && HexValue(s[2]).Some?
         && HexValue(s[1]).value * 16 + HexValue(s[2]).value < 0x80
      then
        var rest :- DecodeUriComponent(s[3..]);
        Ok([(HexValue(s[1]).value * 16 + HexValue(s[2]).value) as char] + rest)
      else Err(UriError)
    else
      var rest :- DecodeUriComponent(s[1..]);
      assert s == [s[0]] + s[1..];
      Ok([s[0]] + rest)
  }

  /** Decoding an encoded ASCII character gives it back and reads past its
      encoding. */
  lemma DecodeEncodedChar(c: char, t: string)
    requires c as int < 0x80
    ensures DecodeUriComponent(EncodeChar(c) + t)
         == match DecodeUriComponent(t) case Ok(u) => Ok([c] + u) case Err(e) => Err(e)
  {
    var s := EncodeChar(c) + t;
    if IsUnreserved(c) {
      assert s[0] == c && s[1..] == t;
    } else {
      var n := c as int;
      assert Utf8(c) == [n];
      assert EncodeChar(c) == ['%', HexDigits[n / 16], HexDigits[n % 16]];
      HexValueOfDigit(n / 16);
      HexValueOfDigit(n % 16);
      assert s[3..] == t;
      assert (n / 16 * 16 + n % 16) as char == c;
    }
  }

  /** `decodeURIComponent(encodeURIComponent(s)) === s` for ASCII strings. */
  lemma {:induction false} DecodeEncode(s: string)
    requires IsAscii(s)
    ensures DecodeUriComponent(EncodeUriComponent(s)) == Ok(s)
  {
    if s != [] {
      DecodeEncode(s[1..]);
      DecodeEncodedChar(s[0], EncodeUriComponent(s[1..]));
      assert s == [s[0]] + s[1..];
    }
  }

  /** The fields whose value is neither null nor undefined. */
  function Present(data: seq<Field>): (r: seq<(string, string)>)
    ensures |r| <= |data|
    ensures forall i :: 0 <= i < |r| ==> Field(r[i].0, Some(r[i].1)) in data
  {
    if data == [] then []
    else if data[0].value.None? then Present(data[1..])
    else [(data[0].key, data[0].value.value)] + Present(data[1..])
  }

  /** One pair of the id: the key, `:`, then the encoded value. */
  function Segment(key: string, value: string): (r: string)
    ensures |r| > 0
  {
    key + ":" + EncodeUriComponent(value)
  }

  function Segments(fields: seq<(string, string)>): (r: seq<string>)
    ensures |r| == |fields|
    ensures forall i :: 0 <= i < |r| ==> r[i] == Segment(fields[i].0, fields[i].1)
  {
    seq(|fields|, i requires 0 <= i < |fields| => Segment(fields[i].0, fields[i].1))
  }

  /** `createCustomId(data)`; the empty string exactly when no field has a value. */
  function CreateCustomId(data: seq<Field>): (r: string)
    ensures r == "" <==> forall i :: 0 <= i < |data| ==> data[i].value.None?
  {
    var segs := Segments(Present(data));
    NoValueNoSegment(data);
    if segs == [] then "" else JoinLength(segs, '|'); Join(segs, '|')
  }

  lemma {:induction false} NoValueNoSegment(data: seq<Field>)
    ensures Present(data) == [] <==> forall i :: 0 <= i < |data| ==> data[i].value.None?
  {
    if data != [] {
      NoValueNoSegment(data[1..]);
      assert forall i :: 1 <= i < |data| ==> data[i] == data[1..][i - 1];
    }
  }

  lemma {:induction false} JoinLength(parts: seq<string>, d: char)
    requires |parts| > 0
    ensures |Join(parts, d)| >= |parts[0]|
  {
  }

  /** One step of the `reduce` in `parseCustomId`: the part is split at `:`,
      and a non-empty first piece becomes a key whose value is the second piece,
      decoded. A part without `:` has no second piece, and the missing value
      decodes to "undefined"; only the text between the first and second `:`
      is read. */
  function ParsePart(acc: map<string, string>, part: string): (r: Result<map<string, string>, CodecError>)
    ensures r.Ok? ==> r.value.Keys == acc.Keys + (if Split(part, ':')[0] == "" then {} else {Split(part, ':')[0]})
  {
    var pieces := Split(part, ':');
    var key := pieces[0];
    if key == "" then Ok(acc)
    else
      var value :- if |pieces| >= 2 then DecodeUriComponent(pieces[1]) else Ok("undefined");
      Ok(acc[key := value])
  }

  /** The `reduce` over the parts, from the accumulator `acc`: keys are only
      ever added, and every added key is non-empty and free of `:`. */
  function ParseParts(acc: map<string, string>, parts: seq<string>): (r: Result<map<string, string>, CodecError>)
    decreases parts
    ensures r.Ok? ==> acc.Keys <= r.value.Keys
    ensures r.Ok? ==> forall k :: k in r.value && k !in acc ==> k != "" && ':' !in k
  {
    if parts == [] then Ok(acc)
    else
      var next :- ParsePart(acc, parts[0]);
      ParseParts(next, parts[1..])
  }

  /** `parseCustomId(idString)`: every key of the parsed object is non-empty and
      free of `:`. */
  function ParseCustomId(id: string): (r: Result<map<string, string>, CodecError>)
    ensures r.Ok? ==> forall k :: k in r.value ==> k != "" && ':' !in k
  {
    ParseParts(map[], Split(id, '|'))
  }

  /** Reading a property of a parsed object: `obj[key]`, undefined when absent. */
  function Get(m: map<string, string>, key: string): (r: Option<string>)
    ensures r.Some? <==> key in m
    ensures r.Some? ==> r.value == m[key]
  {
    if key in m then Some(m[key]) else None
  }

  /** A key the codec can carry: non-empty (an empty key is skipped) and
      without either separator. */
  predicate IsValidKey(key: string) {
    key != "" && ':' !in key && '|' !in key
  }

  predicate IsCarriable(data: seq<Field>) {
    forall i :: 0 <= i < |data| ==>
      IsValidKey(data[i].key) && (data[i].value.Some? ==> IsAscii(data[i].value.value))
  }

  /** The object `data` as read back: the fields with a value, a later present
      value overriding an earlier one. */
  function NonNull(acc: map<string, string>, data: seq<Field>): map<string, string>
    decreases data
  {
    if data == [] then acc
    else NonNull(if data[0].value.Some? then acc[data[0].key := data[0].value.value] else acc, data[1..])
  }

  predicate DistinctKeys(data: seq<Field>) {
    forall i, j :: 0 <= i < j < |data| ==> data[i].key != data[j].key
  }

  /** With distinct keys, `NonNull` is the restriction of the object to the
      fields whose value is not null or undefined. */
  lemma {:induction false} NonNullAt(acc: map<string, string>, data: seq<Field>, i: nat)
    requires DistinctKeys(data) && i < |data|
    decreases data
    ensures data[i].value.Some? ==>
      data[i].key in NonNull(acc, data) && NonNull(acc, data)[data[i].key] == data[i].value.value
    ensures data[i].value.None? && data[i].key !in acc ==> data[i].key !in NonNull(acc, data)
  {
    var acc' := if data[0].value.Some? then acc[data[0].key := data[0].value.value] else acc;
    if i == 0 {
      NonNullKeepsAbsent(acc', data[1..], data[0].key);
    } else {
      NonNullAt(acc', data[1..], i - 1);
    }
  }

  lemma {:induction false} NonNullKeepsAbsent(acc: map<string, string>, data: seq<Field>, key: string)
    requires forall j :: 0 <= j < |data| ==> data[j].key != key
    decreases data
    ensures key in acc ==> key in NonNull(acc, data) && NonNull(acc, data)[key] == acc[key]
    ensures key !in acc ==> key !in NonNull(acc, data)
  {
    if data != [] {
      NonNullKeepsAbsent(if data[0].value.Some? then acc[data[0].key := data[0].value.value] else acc, data[1..], key);
    }
  }

  lemma {:induction false} NonNullKeys(acc: map<string, string>, data: seq<Field>)
    ensures NonNull(acc, data).Keys == acc.Keys + set i | 0 <= i < |data| && data[i].value.Some? :: data[i].key
    decreases data
  {
    if data != [] {
      var acc' := if data[0].value.Some? then acc[data[0].key := data[0].value.value] else acc;
      NonNullKeys(acc', data[1..]);
      var later := set i | 0 <= i < |data[1..]| && data[1..][i].value.Some? :: data[1..][i].key;
      var all := set i | 0 <= i < |data| && data[i].value.Some? :: data[i].key;
      assert all == later + (if data[0].value.Some? then {data[0].key} else {}) by {
        forall k | k in all ensures k in later + (if data[0].value.Some? then {data[0].key} else {}) {
          var i :| 0 <= i < |data| && data[i].value.Some? && data[i].key == k;
          if i > 0 { assert data[1..][i - 1] == data[i]; }
        }
        forall k | k in later ensures k in all {
          var i :| 0 <= i < |data[1..]| && data[1..][i].value.Some? && data[1..][i].key == k;
          assert data[i + 1] == data[1..][i];
        }
      }
    }
  }

  /** Every field of an object with distinct keys reads back as it was
      written, null and undefined alike reading back as absent. */
  lemma RoundTripField(data: seq<Field>, i: nat)
    requires IsCarriable(data) && DistinctKeys(data) && i < |data|
    ensures ParseCustomId(CreateCustomId(data)).Ok?
    ensures Get(ParseCustomId(CreateCustomId(data)).value, data[i].key) == data[i].value
  {
    RoundTrip(data);
    NonNullAt(map[], data, i);
  }

  /** Parsing one segment built by `createCustomId` adds exactly its field. */
  lemma ParseSegment(acc: map<string, string>, key: string, value: string)
    requires IsValidKey(key) && IsAscii(value)
    ensures ParsePart(acc, Segment(key, value)) == Ok(acc[key := value])
  {
    var e := EncodeUriComponent(value);
    assert Segment(key, value) == key + [':'] + e;
    SplitConcat(key, e, ':');
    SplitWithoutSeparator(key, ':');
    SplitWithoutSeparator(e, ':');
    DecodeEncode(value);
  }

  lemma CarriableTail(data: seq<Field>)
    requires data != [] && IsCarriable(data)
    ensures IsCarriable(data[1..])
  {
    forall i | 0 <= i < |data[1..]| ensures IsValidKey(data[1..][i].key) {
      assert data[1..][i] == data[i + 1];
    }
  }

  lemma SegmentsCons(data: seq<Field>)
    requires data != [] && data[0].value.Some?
    ensures Segments(Present(data)) != []
    ensures Segments(Present(data))[0] == Segment(data[0].key, data[0].value.value)
    ensures Segments(Present(data))[1..] == Segments(Present(data[1..]))
  {
  }

  lemma {:induction false} ParseSegments(acc: map<string, string>, data: seq<Field>)
    requires IsCarriable(data)
    ensures ParseParts(acc, Segments(Present(data))) == Ok(NonNull(acc, data))
    decreases data
  {
    if data != [] {
      CarriableTail(data);
      if data[0].value.None? {
        ParseSegments(acc, data[1..]);
      } else {
        var f := data[0];
        var segs := Segments(Present(data));
        SegmentsCons(data);
        ParseSegment(acc, f.key, f.value.value);
        ParseSegments(acc[f.key := f.value.value], data[1..]);
        assert ParseParts(acc, segs) == ParseParts(acc[f.key := f.value.value], segs[1..]);
      }
    }
  }

  /** `parseCustomId(createCustomId(data))` is `data` without its null and
      undefined fields, whenever every key is non-empty and free of `:` and
      `|` and every value is ASCII. */
  lemma RoundTrip(data: seq<Field>)
    requires IsCarriable(data)
    ensures ParseCustomId(CreateCustomId(data)) == Ok(NonNull(map[], data))
  {
    var segs := Segments(Present(data));
    ParseSegments(map[], data);
    if segs == [] {
      assert Split("", '|') == [""];
      assert Split("", ':') == [""];
    } else {
      forall i | 0 <= i < |segs| ensures '|' !in segs[i] {
        var (k, v) := Present(data)[i];
        var j :| 0 <= j < |data| && data[j] == Field(k, Some(v));
      }
      SplitJoin(segs, '|');
    }
  }

  /** The empty id yields the empty object. */
  lemma ParseEmpty()
    ensures ParseCustomId("") == Ok(map[])
  {
    assert Split("", '|') == [""];
    assert Split("", ':') == [""];
  }

  /** A segment with no `:` is not skipped: its key maps to "undefined". */
  lemma ParseWithoutColon(key: string)
    requires IsValidKey(key)
    ensures ParseCustomId(key) == Ok(map[key := "undefined"])
  {
    SplitWithoutSeparator(key, '|');
    SplitWithoutSeparator(key, ':');
    assert ParsePart(map[], key) == Ok(map[key := "undefined"]);
    assert [key][1..] == [];
    assert ParseParts(map[key := "undefined"], []) == Ok(map[key := "undefined"]);
    assert ParseParts(map[], [key]) == ParseParts(map[key := "undefined"], []);
  }

  /** A segment whose key is empty contributes nothing, and its value is not
      even decoded. */
  lemma ParseEmptyKey(rest: string)
    requires '|' !in rest
    ensures ParseCustomId(":" + rest) == Ok(map[])
  {
    SplitWithoutSeparator(":" + rest, '|');
    assert ":" + rest == "" + [':'] + rest;
    SplitConcat("", rest, ':');
    assert Split("", ':') == [""];
    assert ParsePart(map[], ":" + rest) == Ok(map[]);
    assert [":" + rest][1..] == [];
    assert ParseParts(map[], [":" + rest]) == ParseParts(map[], []);
  }

  /** Only the text between the first and the second `:` is kept. */
  lemma ParseIgnoresAfterSecondColon(key: string, value: string, tail: string)
    requires IsValidKey(key) && ':' !in value && '|' !in value && '|' !in tail
    ensures ParseCustomId(key + ":" + value + ":" + tail) == ParseCustomId(key + ":" + value)
  {
    var long := key + ":" + value + ":" + tail;
    var short := key + ":" + value;
    SplitWithoutSeparator(long, '|');
    SplitWithoutSeparator(short, '|');
    assert long == key + [':'] + (value + [':'] + tail);
    assert short == key + [':'] + value;
    SplitConcat(key, value + [':'] + tail, ':');
    SplitConcat(value, tail, ':');
    SplitConcat(key, value, ':');
    SplitWithoutSeparator(key, ':');
    SplitWithoutSeparator(value, ':');
  }

  /** Parsing from a non-empty accumulator extends the accumulator by what
      parsing from the empty object gives. */
  lemma {:induction false} ParsePartsFrom(acc: map<string, string>, base: map<string, string>, parts: seq<string>)
    ensures ParseParts(acc + base, parts)
         == match ParseParts(base, parts) case Ok(m) => Ok(acc + m) case Err(e) => Err(e)
    decreases parts
  {
    if parts != [] {
      var pieces := Split(parts[0], ':');
      if pieces[0] == "" {
        ParsePartsFrom(acc, base, parts[1..]);
      } else {
        var v := if |pieces| >= 2 then DecodeUriComponent(pieces[1]) else Ok("undefined");
        if v.Ok? {
          assert (acc + base)[pieces[0] := v.value] == acc + base[pieces[0] := v.value];
          ParsePartsFrom(acc, base[pieces[0] := v.value], parts[1..]);
        }
      }
    }
  }

  lemma {:induction false} ParsePartsConcat(acc: map<string, string>, p: seq<string>, q: seq<string>)
    ensures ParseParts(acc, p + q)
         == match ParseParts(acc, p) case Ok(m) => ParseParts(m, q) case Err(e) => Err(e)
    decreases p
  {
    if p == [] {
      assert p + q == q;
    } else {
      assert (p + q)[0] == p[0];
      assert (p + q)[1..] == p[1..] + q;
      match ParsePart(acc, p[0])
      case Ok(next) => ParsePartsConcat(next, p[1..], q);
      case Err(_) =>
    }
  }

  /** Two ids joined by `|` parse to the union of their objects, the second
      winning on a shared key; an error in either is an error of the whole. */
  lemma ParseConcat(a: string, b: string)
    ensures ParseCustomId(a + "|" + b)
         == if ParseCustomId(a).Ok? && ParseCustomId(b).Ok?
            then Ok(ParseCustomId(a).value + ParseCustomId(b).value)
            else Err(UriError)
  {
    assert a + "|" + b == a + ['|'] + b;
    SplitConcat(a, b, '|');
    ParsePartsConcat(map[], Split(a, '|'), Split(b, '|'));
    match ParseCustomId(a)
    case Ok(m) =>
      assert m + map[] == m;
      ParsePartsFrom(m, map[], Split(b, '|'));
      if ParseCustomId(b).Err? {
        assert ParseCustomId(b).error == UriError;
      }
    case Err(e) => assert e == UriError;
  }

  /** A later duplicate key overwrites an earlier one. */
  lemma ParseLaterDuplicateWins(key: string, first: string, second: string)
    requires IsValidKey(key) && IsAscii(first) && IsAscii(second)
    ensures ParseCustomId(Segment(key, first) + "|" + Segment(key, second)) == Ok(map[key := second])
  {
    ParseConcat(Segment(key, first), Segment(key, second));
    ParseSingleSegment(key, first);
    ParseSingleSegment(key, second);
    assert map[key := first] + map[key := second] == map[key := second];
  }

  /** The id of a one-field object parses back to that field. */
  lemma ParseSingleSegment(key: string, value: string)
    requires IsValidKey(key) && IsAscii(value)
    ensures ParseCustomId(Segment(key, value)) == Ok(map[key := value])
  {
    var one := [Field(key, Some(value))];
    RoundTrip(one);
    assert Present(one) == [(key, value)];
    assert CreateCustomId(one) == Segment(key, value);
    assert NonNull(map[], one) == map[key := value];
  }
}
