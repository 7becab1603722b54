/** The block "hash" of the ledger: `btoa(JSON.stringify(block)).slice(0, 20)`.
    The serialisation is written out for the key order every caller
    produces; `btoa` is base64 over Latin-1 code points and fails on any
    character above U+00FF. */
module Digest {
  import opened Text
  import opened Blocks
  import opened JsParse

  /** What `btoa` accepts: every code point at most U+00FF. */
  predicate Latin1(s: string) {
    forall i :: 0 <= i < |s| ==> s[i] as int <= 0xFF
  }

  lemma {:induction false} Latin1Concat(a: string, b: string)
    ensures Latin1(a + b) <==> Latin1(a) && Latin1(b)
  {
    if Latin1(a + b) {
      forall i | 0 <= i < |a| ensures a[i] as int <= 0xFF {
        assert a[i] == (a + b)[i];
      }
      forall i | 0 <= i < |b| ensures b[i] as int <= 0xFF {
        assert b[i] == (a + b)[|a| + i];
      }
    }
    if Latin1(a) && Latin1(b) {
      forall i | 0 <= i < |a + b| ensures (a + b)[i] as int <= 0xFF {
        if i < |a| { assert (a + b)[i] == a[i]; } else { assert (a + b)[i] == b[i - |a|]; }
      }
    }
  }

  // ---------------------------------------------------------------- JSON

  /** Lower-case hexadecimal digit, as JSON.stringify writes `\u00XX`. */
  function HexDigit(v: nat): (c: char)
    requires v < 16
    ensures c as int < 0x80
  {
    if v < 10 then ('0' as int + v) as char else ('a' as int + v - 10) as char
  }

  /** The letter of the two-character escape JSON.stringify uses for
      backspace, tab, line feed, form feed, carriage return, quote and
      backslash, or `' '` when the character has none. */
  function ShortEscape(c: char): char
  {
    if c == '"' then '"'
    else if c == '\\' then '\\'
    else if c == '\U{0008}' then 'b'
    else if c == '\t' then 't'
    else if c == '\n' then 'n'
    else if c == '\U{000C}' then 'f'
    else if c == '\r' then 'r'
    else ' '
  }

  /** How JSON.stringify writes one character inside a string literal
      (QuoteJSONString, ECMA-262 section 25.5.2.3): a two-character escape
      where there is one, `\u00XX` for the other control characters, and
      the character itself otherwise. */
  function EscapeChar(c: char): (e: string)
    ensures |e| >= 1
  {
    var short := ShortEscape(c);
    if short != ' ' then ['\\', short]
    else if c as int < 0x20 then ['\\', 'u', '0', '0', HexDigit(c as int / 16), HexDigit(c as int % 16)]
    else [c]
  }

  /** An escape is Latin-1 exactly when the character is. */
  lemma {:induction false} EscapeCharLatin1(c: char)
    ensures Latin1(EscapeChar(c)) <==> c as int <= 0xFF
  {
    var e := EscapeChar(c);
    if ShortEscape(c) == ' ' && c as int >= 0x20 {
      assert e[0] == c;
    }
  }

  /** The escaped content of a JSON string literal. */
  function Escape(s: string): (e: string)
    ensures |e| >= |s|
  {
    if s == [] then "" else EscapeChar(s[0]) + Escape(s[1..])
  }

  /** Escaping neither adds nor removes characters above U+00FF. */
  lemma {:induction false} EscapeLatin1(s: string)
    ensures Latin1(Escape(s)) <==> Latin1(s)
  {
    if s != [] {
      EscapeLatin1(s[1..]);
      EscapeCharLatin1(s[0]);
      Latin1Concat(EscapeChar(s[0]), Escape(s[1..]));
      assert s == [s[0]] + s[1..];
      Latin1Concat([s[0]], s[1..]);
    }
  }

  /** A JSON string literal. */
  function Quote(s: string): (q: string)
    ensures |q| >= 2
  {
    "\"" + Escape(s) + "\""
  }

  /** The own keys of a block object, in the order `JSON.stringify`
      visits them: the spread `{...blockData, index, timestamp, prevHash,
      hash}` that every caller produces. */
  datatype Key = Farmer | Crop | Quantity | Price | Notes | Index | Timestamp | PrevHash | Hash

  function KeyName(k: Key): (n: string)
    ensures Latin1(n)
  {
    match k
    case Farmer => "farmer"
    case Crop => "crop"
    case Quantity => "quantity"
    case Price => "price"
    case Notes => "notes"
    case Index => "index"
    case Timestamp => "timestamp"
    case PrevHash => "prevHash"
    case Hash => "hash"
  }

  /** Keys of the verifier's copy `{...block, hash: undefined}`: a key
      whose value is `undefined` is left out by `JSON.stringify`. */
  const VerifyKeys: seq<Key> := [Farmer, Crop, Quantity, Price, Notes, Index, Timestamp, PrevHash]

  /** Keys of the block `addBlock` hashes, whose `hash` is still "". */
  const AppendKeys: seq<Key> := VerifyKeys + [Hash]

    /** The JSON text of the value under `k`: a string literal, or the
      decimal number for `index`. */
  function ValueText(b: Block, k: Key): string
  {
    match k
    case Farmer => Quote(b.farmer)
    case Crop => Quote(b.crop)
    case Quantity => Quote(b.quantity)
    case Price => Quote(b.price)
    case Notes => Quote(b.notes)
    case Index => IntToString(b.index)
    case Timestamp => Quote(b.timestamp)
    case PrevHash => Quote(b.prevHash)
    case Hash => Quote(b.hash)
  }

  /** The text field under `k`, if `k` holds text. */
  predicate FieldLatin1(b: Block, k: Key) {
    match k
    case Farmer => Latin1(b.farmer)
    case Crop => Latin1(b.crop)
    case Quantity => Latin1(b.quantity)
    case Price => Latin1(b.price)
    case Notes => Latin1(b.notes)
    case Index => true
    case Timestamp => Latin1(b.timestamp)
    case PrevHash => Latin1(b.prevHash)
    case Hash => Latin1(b.hash)
  }

  /** One `"key":value` member. */
  function Member(b: Block, k: Key): string
  {
    "\"" + (KeyName(k) + ("\":" + ValueText(b, k)))
  }

  /** The members for `keys`, separated by commas. */
  function Members(b: Block, keys: seq<Key>): string
  {
    if keys == [] then ""
    else if |keys| == 1 then Member(b, keys[0])
    else Member(b, keys[0]) + ("," + Members(b, keys[1..]))
  }

  /** `JSON.stringify` of the block object with the given own keys. */
  function Stringify(b: Block, keys: seq<Key>): string
  {
    "{" + (Members(b, keys) + "}")
  }

  /** `JSON.stringify` of the block as `addBlock` hashes it (with its
      `hash` key, "" at that moment) or as the verifier does (`hash:
      undefined`, so no `hash` key). */
  function Serialise(b: Block, emptyHash: bool): string
  {
    Stringify(b, if emptyHash then AppendKeys else VerifyKeys)
  }

  /** The serialisation up to the start of the crop value: the opening
      brace, the farmer member, the comma and the crop key. */
  function Head(b: Block): (h: string)
    ensures |h| >= 20
  {
    "{" + (Member(b, Farmer) + ("," + ("\"" + (KeyName(Crop) + "\":"))))
  }

  /** The first fifteen serialised characters: `{"farmer":"` followed by
      the first four characters of the escaped farmer name (or fewer, then
      the start of `","crop":`). */
  function Window(b: Block): (w: string)
    ensures |w| == 15
  {
    Head(b)[..15]
  }

  /** Every serialisation whose keys start with farmer and crop (and go
      on) begins with `Head`. */
  lemma {:induction false} StringifyHead(b: Block, keys: seq<Key>)
    requires |keys| >= 3 && keys[0] == Farmer && keys[1] == Crop
    ensures exists rest :: Stringify(b, keys) == Head(b) + rest
  {
    var m0, q, r2 := Member(b, Farmer), Quote(b.crop), Members(b, keys[2..]);
    assert keys[1..][1..] == keys[2..];
    assert Members(b, keys[1..]) == Member(b, Crop) + ("," + r2);
    assert Member(b, Crop) == "\"" + (KeyName(Crop) + ("\":" + q));
    assert Members(b, keys) == m0 + ("," + Members(b, keys[1..]));
    Regroup("{", m0, ",", "\"", KeyName(Crop), "\":", q, r2, "}");
    assert Stringify(b, keys) == Head(b) + (q + (("," + r2) + "}"));
  }

  /** Both serialisations open with `Head` and close with a brace. */
  lemma {:induction false} SerialiseHead(b: Block, emptyHash: bool)
    ensures var r := Serialise(b, emptyHash); |Head(b)| <= |r| && r[..|Head(b)|] == Head(b)
    ensures var r := Serialise(b, emptyHash); r[|r| - 1] == '}'
  {
    var keys := if emptyHash then AppendKeys else VerifyKeys;
    StringifyHead(b, keys);
    var rest :| Stringify(b, keys) == Head(b) + rest;
    PrefixOfConcat(Head(b), rest, |Head(b)|);
  }

  lemma {:induction false} Regroup(o: string, m0: string, c: string, l1: string, k: string, l2: string, q: string, r2: string, z: string)
    ensures o + ((m0 + (c + ((l1 + (k + (l2 + q))) + (c + r2)))) + z)
         == o + (m0 + (c + (l1 + (k + l2)))) + (q + ((c + r2) + z))
  {
  }

  /** Both serialisations begin with the same fifteen characters, and
      those depend on the farmer name only. */
  lemma {:induction false} SerialiseWindow(b: Block, emptyHash: bool)
    ensures |Serialise(b, emptyHash)| >= 15
    ensures Serialise(b, emptyHash)[..15] == Window(b)
  {
    var keys := if emptyHash then AppendKeys else VerifyKeys;
    StringifyHead(b, keys);
    var rest :| Stringify(b, keys) == Head(b) + rest;
    PrefixOfConcat(Head(b), rest, 15);
  }

  lemma {:induction false} PrefixOfConcat(a: string, x: string, k: nat)
    requires k <= |a|
    ensures (a + x)[..k] == a[..k]
  {
  }

  /** A character `JSON.stringify` writes as itself. */
  predicate Plain(c: char) {
    ShortEscape(c) == ' ' && c as int >= 0x20
  }

  /** Escaping leaves a prefix of plain characters as it is. */
  lemma {:induction false} EscapePlainPrefix(s: string, k: nat)
    requires k <= |s|
    requires forall i :: 0 <= i < k ==> Plain(s[i])
    ensures |Escape(s)| >= k && Escape(s)[..k] == s[..k]
  {
    if k > 0 {
      var e := Escape(s[1..]);
      EscapePlainPrefix(s[1..], k - 1);
      assert EscapeChar(s[0]) == [s[0]];
      assert Escape(s) == [s[0]] + e;
      assert ([s[0]] + e)[..k] == [s[0]] + e[..k - 1];
      assert s[1..][..k - 1] == s[1..k];
      assert [s[0]] + s[1..k] == s[..k];
    }
  }

  /** When a farmer name starts with four plain characters, the window
      is `{"farmer":"` followed by exactly those four. */
  lemma {:induction false} PlainWindow(b: Block)
    requires |b.farmer| >= 4
    requires forall i :: 0 <= i < 4 ==> Plain(b.farmer[i])
    ensures Window(b) == "{\"farmer\":\"" + b.farmer[..4]
  {
    var e := Escape(b.farmer);
    var x := "\"" + ("," + ("\"" + (KeyName(Crop) + "\":")));
    HeadOfFarmer(b);
    EscapePlainPrefix(b.farmer, 4);
    PrefixOfConcat(e, x, 4);
    SliceAfter("{\"farmer\":\"", e + x, 4);
  }

  /** The head is `{"farmer":"`, the escaped name, and what follows it. */
  lemma {:induction false} HeadOfFarmer(b: Block)
    ensures Head(b) == "{\"farmer\":\"" + (Escape(b.farmer) + ("\"" + ("," + ("\"" + (KeyName(Crop) + "\":")))))
  {
    var e := Escape(b.farmer);
    var r := "," + ("\"" + (KeyName(Crop) + "\":"));
    assert Member(b, Farmer) == "\"" + (KeyName(Farmer) + ("\":" + (("\"" + e) + "\"")));
    Regroup5("{", "\"", KeyName(Farmer), "\":", "\"", e, "\"", r);
    FarmerOpening();
  }

  lemma {:induction false} FarmerOpening()
    ensures "{" + "\"" + KeyName(Farmer) + "\":" + "\"" == "{\"farmer\":\""
  {
    assert KeyName(Farmer) == "farmer";
  }

  lemma {:induction false} Regroup5(o: string, q1: string, k: string, q2: string, q3: string, e: string, q4: string, r: string)
    ensures o + ((q1 + (k + (q2 + ((q3 + e) + q4)))) + r) == (o + q1 + k + q2 + q3) + (e + (q4 + r))
  {
  }

  lemma {:induction false} SliceAfter(a: string, y: string, k: nat)
    requires k <= |y|
    ensures (a + y)[..|a| + k] == a + y[..k]
  {
  }

  /** The text fields of a block that reach the verifier's serialisation. */
  predicate FieldsLatin1(b: Block) {
    Latin1(b.farmer) && Latin1(b.crop) && Latin1(b.quantity) && Latin1(b.price)
    && Latin1(b.notes) && Latin1(b.timestamp) && Latin1(b.prevHash)
  }

  lemma {:induction false} QuoteLatin1(s: string)
    ensures Latin1(Quote(s)) <==> Latin1(s)
  {
    EscapeLatin1(s);
    Latin1Concat("\"" + Escape(s), "\"");
    Latin1Concat("\"", Escape(s));
  }

  lemma {:induction false} MemberLatin1(b: Block, k: Key)
    ensures Latin1(Member(b, k)) <==> FieldLatin1(b, k)
  {
    var v := ValueText(b, k);
    Latin1Concat("\":", v);
    Latin1Concat(KeyName(k), "\":" + v);
    Latin1Concat("\"", KeyName(k) + ("\":" + v));
    match k
    case Farmer => QuoteLatin1(b.farmer);
    case Crop => QuoteLatin1(b.crop);
    case Quantity => QuoteLatin1(b.quantity);
    case Price => QuoteLatin1(b.price);
    case Notes => QuoteLatin1(b.notes);
    case Index => assert Latin1(v);
    case Timestamp => QuoteLatin1(b.timestamp);
    case PrevHash => QuoteLatin1(b.prevHash);
    case Hash => QuoteLatin1(b.hash);
  }

  /** `btoa` accepts the members exactly when every text field among
      the keys is Latin-1. */
  lemma {:induction false} MembersLatin1(b: Block, keys: seq<Key>)
    ensures Latin1(Members(b, keys)) <==> forall k :: k in keys ==> FieldLatin1(b, k)
  {
    if keys != [] {
      MemberLatin1(b, keys[0]);
      if |keys| > 1 {
        MembersLatin1(b, keys[1..]);
        MembersLatin1Step(b, keys);
        KeysCons(b, keys);
      } else {
        assert keys == [keys[0]];
      }
    }
  }

  lemma {:induction false} MembersLatin1Step(b: Block, keys: seq<Key>)
    requires |keys| > 1
    ensures Latin1(Members(b, keys)) <==> Latin1(Member(b, keys[0])) && Latin1(Members(b, keys[1..]))
  {
    Latin1Concat(",", Members(b, keys[1..]));
    Latin1Concat(Member(b, keys[0]), "," + Members(b, keys[1..]));
  }

  lemma {:induction false} KeysCons(b: Block, keys: seq<Key>)
    requires keys != []
    ensures (forall k :: k in keys ==> FieldLatin1(b, k))
        <==> FieldLatin1(b, keys[0]) && forall k :: k in keys[1..] ==> FieldLatin1(b, k)
  {
    assert keys == [keys[0]] + keys[1..];
  }

  /** `btoa` accepts the serialisation exactly when every text field of
      the block is Latin-1 (on the add side the empty `hash` adds
      nothing). */
  lemma {:induction false} SerialiseLatin1(b: Block, emptyHash: bool)
    requires emptyHash ==> Latin1(b.hash)
    ensures Latin1(Serialise(b, emptyHash)) <==> FieldsLatin1(b)
  {
    var keys := if emptyHash then AppendKeys else VerifyKeys;
    MembersLatin1(b, keys);
    KeysLatin1(b, emptyHash);
    Latin1Concat(Members(b, keys), "}");
    Latin1Concat("{", Members(b, keys) + "}");
  }

  lemma {:induction false} KeysLatin1(b: Block, emptyHash: bool)
    requires emptyHash ==> Latin1(b.hash)
    ensures (forall k :: k in (if emptyHash then AppendKeys else VerifyKeys) ==> FieldLatin1(b, k))
        <==> FieldsLatin1(b)
  {
    var keys := if emptyHash then AppendKeys else VerifyKeys;
    if FieldsLatin1(b) {
      forall k | k in keys ensures FieldLatin1(b, k) {
        assert k == Hash ==> emptyHash;
      }
    } else {
      var k := if !Latin1(b.farmer) then Farmer else if !Latin1(b.crop) then Crop
        else if !Latin1(b.quantity) then Quantity else if !Latin1(b.price) then Price
        else if !Latin1(b.notes) then Notes else if !Latin1(b.timestamp) then Timestamp else PrevHash;
      assert k in keys && !FieldLatin1(b, k);
    }
  }

  /** The verifier's serialisation never looks at the stored hash. */
  lemma {:induction false} MembersIgnoreHash(b: Block, h: string, keys: seq<Key>)
    requires Hash !in keys
    ensures Members(b.(hash := h), keys) == Members(b, keys)
  {
    if keys != [] {
      assert ValueText(b.(hash := h), keys[0]) == ValueText(b, keys[0]);
      if |keys| > 1 {
        MembersIgnoreHash(b, h, keys[1..]);
      }
    }
  }

  /** Hence the verifier's digest of a block does not depend on its
      stored hash. */
  lemma {:induction false} VerifyIgnoresHash(b: Block, h: string)
    ensures VerifyDigest(b.(hash := h)) == VerifyDigest(b)
  {
    MembersIgnoreHash(b, h, VerifyKeys);
    assert Serialise(b.(hash := h), false) == Serialise(b, false);
  }

  // -------------------------------------------------------------- base64

  /** The base64 alphabet of RFC 4648 section 4 (what `btoa` uses). */
  function B64Char(v: nat): (c: char)
    requires v < 64
    ensures c as int < 0x80
  {
    if v < 26 then ('A' as int + v) as char
    else if v < 52 then ('a' as int + v - 26) as char
    else if v < 62 then ('0' as int + v - 52) as char
    else if v == 62 then '+'
    else '/'
  }

  /** Position of an alphabet character. */
  function B64Value(c: char): nat
  {
    if 'A' <= c <= 'Z' then c as int - 'A' as int
    else if 'a' <= c <= 'z' then c as int - 'a' as int + 26
    else if '0' <= c <= '9' then c as int - '0' as int + 52
    else if c == '+' then 62
    else 63
  }

  lemma {:induction false} B64Inverse(v: nat)
    requires v < 64
    ensures B64Value(B64Char(v)) == v
  {
  }

  /** Three input bytes become four output characters. */
  function EncodeGroup(x: nat, y: nat, z: nat): (g: string)
    requires x < 256 && y < 256 && z < 256
    ensures |g| == 4
  {
    [B64Char(x / 4), B64Char((x % 4) * 16 + y / 16), B64Char((y % 16) * 4 + z / 64), B64Char(z % 64)]
  }

  /** Four characters back to three bytes. */
  function DecodeGroup(g: string): (t: seq<nat>)
    requires |g| == 4
    ensures |t| == 3
  {
    var v0, v1, v2, v3 := B64Value(g[0]), B64Value(g[1]), B64Value(g[2]), B64Value(g[3]);
    [v0 * 4 + v1 / 16, (v1 % 16) * 16 + v2 / 4, (v2 % 4) * 64 + v3]
  }

  lemma {:induction false} DecodeEncodeGroup(x: nat, y: nat, z: nat)
    requires x < 256 && y < 256 && z < 256
    ensures DecodeGroup(EncodeGroup(x, y, z)) == [x, y, z]
  {
    var v1 := (x % 4) * 16 + y / 16;
    var v2 := (y % 16) * 4 + z / 64;
    B64Inverse(x / 4);
    B64Inverse(v1);
    B64Inverse(v2);
    B64Inverse(z % 64);
    assert v1 / 16 == x % 4 && v1 % 16 == y / 16;
    assert v2 / 4 == y % 16 && v2 % 4 == z / 64;
  }

  /** Base64 with `=` padding, as `btoa` produces it. */
  function Base64(s: string): (r: string)
    requires Latin1(s)
    ensures |r| == (|s| + 2) / 3 * 4
    decreases |s|
  {
    if |s| >= 3 then
      Latin1Suffix(s, 3);
      GroupCount(|s|);
      EncodeGroup(s[0] as int, s[1] as int, s[2] as int) + Base64(s[3..])
    else if |s| == 2 then
      var x, y := s[0] as int, s[1] as int;
      [B64Char(x / 4), B64Char((x % 4) * 16 + y / 16), B64Char((y % 16) * 4), '=']
    else if |s| == 1 then
      var x := s[0] as int;
      [B64Char(x / 4), B64Char((x % 4) * 16), '=', '=']
    else ""
  }

  /** Decoding of unpadded base64 (a multiple of four characters) into
      code points. */
  function Base64Decode(t: string): (r: seq<nat>)
    requires |t| % 4 == 0
    decreases |t|
  {
    if t == [] then [] else DecodeGroup(t[..4]) + Base64Decode(t[4..])
  }

  /** The code points of a string. */
  function Codes(s: string): (r: seq<nat>)
    ensures |r| == |s|
    ensures forall i :: 0 <= i < |s| ==> r[i] == s[i] as int
  {
    seq(|s|, i requires 0 <= i < |s| => s[i] as int)
  }

  lemma {:induction false} GroupOfFour(n: nat)
    requires n % 4 == 0
    ensures (n + 4) % 4 == 0
  {
  }

  /** Base64 of whole groups decodes back to the input. */
  lemma {:induction false} DecodeBase64(s: string)
    requires Latin1(s) && |s| % 3 == 0
    ensures |Base64(s)| % 4 == 0 && Base64Decode(Base64(s)) == Codes(s)
    decreases |s|
  {
    if s != [] {
      var g := EncodeGroup(s[0] as int, s[1] as int, s[2] as int);
      Latin1Suffix(s, 3);
      ThreeLess(|s|);
      var rest := Base64(s[3..]);
      DecodeBase64(s[3..]);
      DecodeEncodeGroup(s[0] as int, s[1] as int, s[2] as int);
      assert Base64(s) == g + rest;
      DecodeConcat(g, rest);
      CodesCons(s);
    }
  }

  lemma {:induction false} Latin1Suffix(s: string, k: nat)
    requires Latin1(s) && k <= |s|
    ensures Latin1(s[k..])
  {
    forall i | 0 <= i < |s| - k ensures s[k..][i] as int <= 0xFF {
      assert s[k..][i] == s[k + i];
    }
  }

  /** One group of three input characters is four output characters. */
  lemma {:induction false} GroupCount(n: nat)
    requires n >= 3
    ensures (n + 2) / 3 * 4 == 4 + (n - 3 + 2) / 3 * 4
  {
    assert (n + 2) / 3 == 1 + (n - 3 + 2) / 3;
  }

  lemma {:induction false} ThreeLess(n: nat)
    requires n % 3 == 0 && n >= 3
    ensures (n - 3) % 3 == 0
  {
  }

  lemma {:induction false} DecodeConcat(g: string, rest: string)
    requires |g| == 4 && |rest| % 4 == 0
    ensures |g + rest| % 4 == 0
    ensures Base64Decode(g + rest) == DecodeGroup(g) + Base64Decode(rest)
  {
    GroupOfFour(|rest|);
    assert (g + rest)[..4] == g && (g + rest)[4..] == rest;
  }

  lemma {:induction false} CodesCons(s: string)
    requires |s| >= 3
    ensures Codes(s) == [s[0] as int, s[1] as int, s[2] as int] + Codes(s[3..])
  {
  }

  /** Four output characters per three input characters: the first 4k
      characters of the encoding are the encoding of the first 3k input
      characters. */
  lemma {:induction false} Base64Prefix(s: string, k: nat)
    requires Latin1(s) && 3 * k <= |s|
    ensures Latin1(s[..3 * k])
    ensures |Base64(s)| >= 4 * k && Base64(s)[..4 * k] == Base64(s[..3 * k])
    decreases k
  {
    if k > 0 {
      Base64Prefix(s[3..], k - 1);
      assert s[3..][..3 * (k - 1)] == s[..3 * k][3..];
      var g := EncodeGroup(s[0] as int, s[1] as int, s[2] as int);
      assert Base64(s) == g + Base64(s[3..]);
      assert Base64(s[..3 * k]) == g + Base64(s[..3 * k][3..]);
    }
  }

  // --------------------------------------------------------------- digest

  /** The character-by-character test `btoa` makes before encoding. */
  predicate Encodable(text: string) {
    text == [] || (text[0] as int <= 0xFF && Encodable(text[1..]))
  }

  lemma {:induction false} EncodableIsLatin1(text: string)
    ensures Encodable(text) <==> Latin1(text)
  {
    if text != [] {
      EncodableIsLatin1(text[1..]);
      assert forall i :: 1 <= i < |text| ==> text[i] == text[1..][i - 1];
    }
  }

  /** `btoa(text).slice(0, 20)`; `None` where `btoa` throws. */
  /** It exists exactly for Latin-1 text, and it is twenty characters
      long once the text has thirteen characters or more (five groups of
      three); a shorter text gives its whole padded base64. */
  function Digest(text: string): (r: Option<string>)
    ensures r.Some? <==> Latin1(text)
    ensures r.Some? ==> (|r.value| == 20 <==> |text| >= 13)
    ensures r.Some? && |text| < 13 ==> |r.value| == (|text| + 2) / 3 * 4
  {
    EncodableIsLatin1(text);
    if !Encodable(text) then None
    else
      var e := Base64(text);
      Some(if |e| <= 20 then e else e[..20])
  }

  /** Twenty base64 characters encode exactly the first fifteen input
      characters, so a text of at least fifteen characters has a digest of
      exactly twenty characters determined by those fifteen. */
  lemma {:induction false} DigestOfLong(text: string)
    requires Latin1(text) && |text| >= 15
    ensures Latin1(text[..15])
    ensures Digest(text) == Some(Base64(text[..15]))
    ensures |Digest(text).value| == 20
  {
    Base64Prefix(text, 5);
    var e := Base64(text);
    assert |e| == 20 ==> e[..20] == e;
  }

  /** `calculateHash` in addBlock: the digest of the new block serialised
      with `hash: ""`. */
  function AppendDigest(b: Block): Option<string>
  {
    Digest(Serialise(b, true))
  }

  /** The verifier's recomputation: the digest of the block serialised
      with `hash: undefined`. */
  function VerifyDigest(b: Block): Option<string>
  {
    Digest(Serialise(b, false))
  }

  /** Either side's digest: it exists exactly for a block whose text
      fields are Latin-1, and it is then the twenty-character base64 of
      the fifteen-character window. */
  lemma {:induction false} SideDigest(b: Block, emptyHash: bool)
    requires emptyHash ==> Latin1(b.hash)
    ensures Digest(Serialise(b, emptyHash)).Some? <==> FieldsLatin1(b)
    ensures Digest(Serialise(b, emptyHash)).Some? ==>
      Latin1(Window(b)) && Digest(Serialise(b, emptyHash)) == Some(Base64(Window(b)))
      && |Digest(Serialise(b, emptyHash)).value| == 20
  {
    SerialiseLatin1(b, emptyHash);
    SerialiseWindow(b, emptyHash);
    if FieldsLatin1(b) {
      DigestOfLong(Serialise(b, emptyHash));
    }
  }

  /** The two sides agree on every block `addBlock` hashes (its hash is
      still empty): both fail together (a field outside Latin-1), and
      otherwise both are the base64 of the same fifteen-character window,
      twenty characters long. This is the only reason a freshly added
      block passes verification. */
  lemma {:induction false} DigestsAgree(b: Block)
    requires b.hash == ""
    ensures AppendDigest(b) == VerifyDigest(b)
    ensures AppendDigest(b).Some? <==> FieldsLatin1(b)
    ensures AppendDigest(b).Some? ==> Latin1(Window(b)) && AppendDigest(b) == Some(Base64(Window(b)))
    ensures AppendDigest(b).Some? ==> |AppendDigest(b).value| == 20
  {
    SideDigest(b, true);
    SideDigest(b, false);
  }

  /** The add side's digest: with the hash still Latin-1 (it is "" when
      `addBlock` computes it), it exists exactly when every other text
      field is Latin-1; whenever it exists it has twenty characters. */
  lemma {:induction false} AppendEncodes(b: Block)
    ensures Latin1(b.hash) ==> (AppendDigest(b).Some? <==> FieldsLatin1(b))
    ensures AppendDigest(b).Some? ==> |AppendDigest(b).value| == 20
  {
    SerialiseWindow(b, true);
    if Latin1(b.hash) {
      SerialiseLatin1(b, true);
    }
  }

  /** The verifier's recomputation throws exactly on a block with a text
      field outside Latin-1, and otherwise has twenty characters. */
  lemma {:induction false} VerifyEncodes(b: Block)
    ensures VerifyDigest(b).Some? <==> FieldsLatin1(b)
    ensures VerifyDigest(b).Some? ==> |VerifyDigest(b).value| == 20
  {
    SerialiseWindow(b, false);
    SerialiseLatin1(b, false);
  }

  /** The recomputed digest depends on the farmer name alone (its first
      four escaped characters): blocks with the same farmer and Latin-1
      fields have the same digest whatever their crop, quantity, price,
      notes, index, timestamp or previous hash. */
  lemma {:induction false} DigestIgnoresAllButFarmer(b: Block, c: Block)
    requires FieldsLatin1(b) && FieldsLatin1(c)
    requires b.farmer == c.farmer
    ensures VerifyDigest(b) == VerifyDigest(c)
  {
    SideDigest(b, false);
    SideDigest(c, false);
  }

  /** Conversely, digests of Latin-1 blocks differ whenever their windows
      differ: base64 is injective. */
  lemma {:induction false} DigestSeesWindow(b: Block, c: Block)
    requires FieldsLatin1(b) && FieldsLatin1(c)
    requires Window(b) != Window(c)
    ensures VerifyDigest(b) != VerifyDigest(c)
  {
    SideDigest(b, false);
    SideDigest(c, false);
    Base64Injective(Window(b), Window(c));
  }

  /** Base64 of whole groups is injective on Latin-1 text. */
  lemma {:induction false} Base64Injective(s: string, t: string)
    requires Latin1(s) && Latin1(t) && |s| % 3 == 0 && |t| % 3 == 0
    ensures Base64(s) == Base64(t) ==> s == t
  {
    DecodeBase64(s);
    DecodeBase64(t);
    if Base64(s) == Base64(t) {
      assert Codes(s) == Codes(t);
      assert |s| == |t|;
      forall i | 0 <= i < |s| ensures s[i] == t[i] {
        assert Codes(s)[i] == Codes(t)[i];
      }
    }
  }
}
