/** `base64.ts`: the padded variant, the url-safe variant made from it, and link ids. */
module Base64Text {
  import opened Bytes
  import opened BitStream
  import opened Base64
  import opened Base64Laws

  function Equals(n: nat): (s: string)
    ensures |s| == n && forall i :: 0 <= i < n ==> s[i] == '='
  {
    seq(n, _ => '=')
  }

  /** Section 4 of RFC 4648: the text filled with `=` to a multiple of four. */
  function Padded(bytes: seq<byte>): (s: string)
    ensures |s| % 4 == 0
  {
    var text := Encoded(bytes, Base64Standard);
    text + Equals((4 - |text| % 4) % 4)
  }

  /** `s.replace(/=+$/, "")`. */
  function StripEquals(s: string): (t: string)
    ensures t <= s && (t == "" || t[|t| - 1] != '=')
    ensures forall i :: |t| <= i < |s| ==> s[i] == '='
  {
    if s != "" && s[|s| - 1] == '=' then StripEquals(s[..|s| - 1]) else s
  }

  function ReplaceChar(s: string, from: char, to: char): (t: string)
    ensures |t| == |s|
  {
    seq(|s|, i requires 0 <= i < |s| => if s[i] == from then to else s[i])
  }

  function BytesToBase64Url(bytes: seq<byte>): string {
    StripEquals(ReplaceChar(ReplaceChar(Padded(bytes), '+', '-'), '/', '_'))
  }

  method BytesToBase64(bytes: seq<byte>) returns (text: string)
    ensures text == Padded(bytes)
  {
    text := EncodeRadix(bytes, Base64Standard);
    ghost var n, k := |text|, 0;
    while |text| % 4 != 0
      invariant |text| == n + k && k <= (4 - n % 4) % 4
      invariant text == Encoded(bytes, Base64Standard) + Equals(k)
      decreases (4 - n % 4) % 4 - k
    {
      text := text + "=";
      k := k + 1;
    }
  }

  method Base64ToBytes(s: string) returns (r: Result<seq<byte>, ()>)
    ensures r.Ok? <==> Readable(StripEquals(s), Base64Standard)
    ensures r.Ok? ==> r.value == Decoded(StripEquals(s), Base64Standard)
  {
    r := DecodeRadix(StripEquals(s), Base64Standard);
  }

  lemma NoEqualsSign(text: string, a: Alphabet)
    requires Readable(text, a)
    ensures forall i :: 0 <= i < |text| ==> text[i] != '='
  {
    forall i | 0 <= i < |text| ensures text[i] != '=' {
      assert a.Digit(text[i]).Some?;
    }
  }

  lemma {:induction false} StripPadding(text: string, n: nat)
    requires text == "" || text[|text| - 1] != '='
    ensures StripEquals(text + Equals(n)) == text
  {
    if n == 0 {
      assert text + Equals(0) == text;
    } else {
      assert (text + Equals(n))[..|text| + n - 1] == text + Equals(n - 1);
      StripPadding(text, n - 1);
    }
  }

  /** The padded variant decodes to what was encoded, whatever the length. */
  lemma DecodeAfterPadded(bytes: seq<byte>)
    ensures Readable(StripEquals(Padded(bytes)), Base64Standard)
    ensures Decoded(StripEquals(Padded(bytes)), Base64Standard) == bytes
  {
    hide Encoded, Decoded;
    var text := Encoded(bytes, Base64Standard);
    DecodeAfterEncode(bytes, Base64Standard);
    NoEqualsSign(text, Base64Standard);
    StripPadding(text, (4 - |text| % 4) % 4);
  }

  lemma UrlSymbol(d: nat)
    requires d < 64
    ensures Pow2(6) == 64
    ensures var c := Base64Standard.Symbol(d);
            Base64Url.Symbol(d) == if c == '+' then '-' else if c == '/' then '_' else c
  {
    SmallPowers();
  }

  /** Replacing two symbols and stripping the padding gives section 5 of RFC 4648 without padding. */
  lemma UrlIsSection5(bytes: seq<byte>)
    ensures BytesToBase64Url(bytes) == Encoded(bytes, Base64Url)
  {
    var std, url := Encoded(bytes, Base64Standard), Encoded(bytes, Base64Url);
    var n := (4 - |std| % 4) % 4;
    var d := Chunk(Stream(bytes, 8), 6);
    SmallPowers();
    StreamOfChunk(Stream(bytes, 8), 6);
    var replaced := ReplaceChar(ReplaceChar(Padded(bytes), '+', '-'), '/', '_');
    forall i | 0 <= i < |d| ensures replaced[i] == url[i] {
      UrlSymbol(d[i]);
    }
    assert replaced == url + Equals(n);
    DecodeAfterEncode(bytes, Base64Url);
    NoEqualsSign(url, Base64Url);
    StripPadding(url, n);
  }

  /** `LINK_ID_REGEX`. */
  predicate IsLinkId(id: string) {
    |id| == 16 && forall i :: 0 <= i < 16 ==>
      'A' <= id[i] <= 'Z' || 'a' <= id[i] <= 'z' || '0' <= id[i] <= '9' || id[i] == '_' || id[i] == '-'
  }

  /** Twelve random bytes always make an id of the shape the server accepts, and distinct bytes distinct ids. */
  lemma TwelveBytesMakeALinkId(bytes: seq<byte>)
    requires |bytes| == 12
    ensures IsLinkId(BytesToBase64Url(bytes))
    ensures forall other :: |other| == 12 && BytesToBase64Url(other) == BytesToBase64Url(bytes) ==> other == bytes
  {
    var id := Encoded(bytes, Base64Url);
    UrlIsSection5(bytes);
    DecodeAfterEncode(bytes, Base64Url);
    ChunkLength(Stream(bytes, 8), 6);
    assert |id| == 16;
    forall i | 0 <= i < 16 ensures Base64Url.Digit(id[i]).Some? {}
    forall other | |other| == 12 && BytesToBase64Url(other) == BytesToBase64Url(bytes) ensures other == bytes {
      UrlIsSection5(other);
      EncodeInjective(other, bytes, Base64Url);
    }
  }
}
