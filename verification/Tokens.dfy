/** Handle tokens: signed claims as opaque text. */
module Tokens {
  import Hex
  import opened Bytes
  import opened SecretRefs
  import opened Texts
  import opened Wrappers

  const TOKEN_PREFIX := "v1"
  const HANDLE_PREFIX := "hdl-"
  const CONNECTION_PREFIX := "conn-"

  /** Instants are nanoseconds on one clock. */
  datatype Claims = Claims(
    handleId: string, connectionId: string, tenant: string, runId: Option<string>,
    scopes: set<string>, issuedAt: int, expiresAt: int)

  datatype Handle = Handle(claims: Claims, signature: string)

  datatype Denial = NotAToken | NotHex | NotClaims | BadGrammar

  predicate MintedId(prefix: string, id: string) {
    && StartsWith(id, prefix) && |id| == |prefix| + 32
    && forall i :: |prefix| <= i < |id| ==> Hex.LowerHex(id[i])
  }

  predicate Grammatical(c: Claims) {
    && MintedId(HANDLE_PREFIX, c.handleId) && MintedId(CONNECTION_PREFIX, c.connectionId)
    && c.tenant != "" && c.issuedAt < c.expiresAt
  }

  /** The JSON text of claims: writing them and reading them back. */
  datatype Codec = Codec(write: Claims -> seq<byte>, read: seq<byte> -> Option<Claims>)

  ghost predicate Faithful(codec: Codec) {
    forall c :: codec.read(codec.write(c)) == Some(c)
  }

  function Token(h: Handle, codec: Codec): string {
    TOKEN_PREFIX + "." + Hex.Encode(codec.write(h.claims)) + "." + h.signature
  }

  /** At most three parts; dots after the second belong to the third. */
  function Parts(token: string): (string, string, string) {
    var first := SplitOnce(token, '.');
    if first.None? then (token, "", "")
    else
      var second := SplitOnce(first.value.1, '.');
      if second.None? then (first.value.0, first.value.1, "")
      else (first.value.0, second.value.0, second.value.1)
  }

  function ParseToken(token: string, codec: Codec): Result<Handle, Denial> {
    var (prefix, hex, signature) := Parts(token);
    if prefix != TOKEN_PREFIX then Err(NotAToken)
    else
      var bytes := Hex.Decode(hex);
      if bytes.None? then Err(NotHex)
      else
        var claims := codec.read(bytes.value);
        if claims.None? then Err(NotClaims)
        else if !Grammatical(claims.value) then Err(BadGrammar)
        else Ok(Handle(claims.value, signature))
  }

  /** The prefix and 32 small hexadecimal digits. */
  ghost predicate Numbered(prefix: string, id: string) {
    exists tail :: id == prefix + tail && |tail| == 32 && forall i :: 0 <= i < 32 ==> SmallHex(tail[i])
  }

  lemma MintedExactly(prefix: string, id: string)
    ensures MintedId(prefix, id) <==> Numbered(prefix, id)
  {
    hide SmallHex;
    forall c ensures SmallHex(c) <==> Hex.LowerHex(c) {
      Alphabets(c);
    }
    if MintedId(prefix, id) {
      var tail := id[|prefix|..];
      assert id == prefix + tail;
      assert forall i :: 0 <= i < 32 ==> tail[i] == id[|prefix| + i];
    }
    if Numbered(prefix, id) {
      var tail :| id == prefix + tail && |tail| == 32 && forall i :: 0 <= i < 32 ==> SmallHex(tail[i]);
      assert id[..|prefix|] == prefix;
      forall i | |prefix| <= i < |id| ensures Hex.LowerHex(id[i]) {
        assert id[i] == tail[i - |prefix|];
      }
    }
  }

  lemma GrammaticalExactly(c: Claims)
    ensures Grammatical(c) <==>
            && Numbered("hdl-", c.handleId) && Numbered("conn-", c.connectionId)
            && c.tenant != "" && c.issuedAt < c.expiresAt
  {
    hide MintedId, Numbered;
    MintedExactly("hdl-", c.handleId);
    MintedExactly("conn-", c.connectionId);
  }

  /** Between the first dot and the second; without a second one, all the rest. */
  ghost predicate Carries(token: string, hex: string, signature: string) {
    && '.' !in hex
    && (token == "v1." + hex + "." + signature || (token == "v1." + hex && signature == ""))
  }

  lemma PartsExactly(token: string, hex: string, signature: string)
    ensures Parts(token) == ("v1", hex, signature) <==>
            Carries(token, hex, signature) || (token == "v1" && hex == "" && signature == "")
  {
    hide SplitOnce;
    var first := SplitOnce(token, '.');
    assert first.Some? ==> token[|first.value.0|] == '.';
    if Carries(token, hex, signature) {
      var rest := token[3..];
      assert token == "v1" + ['.'] + rest;
      SplitOnceAt("v1", rest, '.');
      if token == "v1." + hex + "." + signature {
        assert rest == hex + ['.'] + signature;
        SplitOnceAt(hex, signature, '.');
      } else {
        assert rest == hex;
      }
    }
    if first.Some? && first.value.0 == "v1" {
      var rest := first.value.1;
      assert token == "v1" + ['.'] + rest == "v1." + rest;
      var second := SplitOnce(rest, '.');
      if second.Some? {
        assert token == "v1." + second.value.0 + "." + second.value.1;
      }
    }
  }

  /** A token parses to a handle exactly when it carries its claims in hexadecimal
      and its signature, and the claims are grammatical. */
  lemma ParseTokenExactly(token: string, codec: Codec, h: Handle)
    ensures ParseToken(token, codec) == Ok(h) <==>
            && Grammatical(h.claims)
            && exists hex ::
              && (Carries(token, hex, h.signature) || (token == "v1" && hex == "" && h.signature == ""))
              && Hex.Decode(hex).Some? && codec.read(Hex.Decode(hex).value) == Some(h.claims)
  {
    hide Parts, Grammatical, Hex.Decode, Carries;
    var (prefix, hex, signature) := Parts(token);
    PartsExactly(token, hex, signature);
    forall x | Carries(token, x, h.signature) || (token == "v1" && x == "" && h.signature == "")
      ensures prefix == "v1" && hex == x && signature == h.signature
    {
      PartsExactly(token, x, h.signature);
    }
  }

  lemma PartsOfToken(hex: string, signature: string)
    requires '.' !in hex
    ensures Parts(TOKEN_PREFIX + "." + hex + "." + signature) == (TOKEN_PREFIX, hex, signature)
  {
    var token := TOKEN_PREFIX + "." + hex + "." + signature;
    assert token == TOKEN_PREFIX + ['.'] + (hex + ['.'] + signature);
    SplitOnceAt(TOKEN_PREFIX, hex + ['.'] + signature, '.');
    SplitOnceAt(hex, signature, '.');
  }

  lemma HexHasNoDot(bytes: seq<byte>)
    ensures '.' !in Hex.Encode(bytes)
  {
    hide Hex.Encode;
  }

  /** A handle's token parses back to the handle, whatever its signature, exactly
      when its claims are grammatical; otherwise it is refused. */
  lemma TokenRoundTrip(h: Handle, codec: Codec)
    requires Faithful(codec)
    ensures ParseToken(Token(h, codec), codec) == if Grammatical(h.claims) then Ok(h) else Err(BadGrammar)
  {
    hide Parts, Grammatical, Hex.Encode, Hex.Decode;
    var bytes := codec.write(h.claims);
    HexHasNoDot(bytes);
    PartsOfToken(Hex.Encode(bytes), h.signature);
    Hex.DecodeUndoesEncode(bytes);
  }

  /** No two handles share a token, grammatical or not. */
  lemma TokensAreInjective(g: Handle, h: Handle, codec: Codec)
    requires Faithful(codec) && Token(g, codec) == Token(h, codec)
    ensures g == h
  {
    hide Hex.Encode, Hex.Decode, Parts;
    forall x | x == g || x == h
      ensures Hex.Decode(Parts(Token(x, codec)).1) == Some(codec.write(x.claims))
      ensures Parts(Token(x, codec)).2 == x.signature
    {
      var bytes := codec.write(x.claims);
      HexHasNoDot(bytes);
      PartsOfToken(Hex.Encode(bytes), x.signature);
      Hex.DecodeUndoesEncode(bytes);
    }
    assert codec.read(codec.write(g.claims)) == Some(g.claims);
  }

  /** Parsing a token fails hard exactly when reading its claims as octets does. */
  ghost predicate ParsePanics(token: string) {
    Parts(token).0 == TOKEN_PREFIX && Hex.DecodeOctets(Hex.Utf8(Parts(token).1)).Panics?
  }

  lemma ParsePanicsExactly(token: string)
    ensures ParsePanics(token) <==>
            && Parts(token).0 == TOKEN_PREFIX
            && |Hex.Utf8(Parts(token).1)| % 2 == 0 && Hex.Straddles(Parts(token).1)
  {
    hide Parts, Hex.Utf8, Hex.Straddles, Hex.DecodeOctets;
    Hex.DecodePanicsExactly(Parts(token).1);
  }

  /** An accented letter after a digit is enough. */
  lemma AccentPanics(signature: string)
    ensures ParsePanics(TOKEN_PREFIX + "." + "a\U{E9}b" + "." + signature)
  {
    hide Hex.Straddles, Parts;
    var hex := "a\U{E9}b";
    Hex.StraddlesFrom(hex, 0);
    assert hex[1..] == "\U{E9}b" && hex[1..][1..] == "b" && hex[1..][1..][1..] == "";
    PartsOfToken(hex, signature);
    ParsePanicsExactly(TOKEN_PREFIX + "." + hex + "." + signature);
  }
}
