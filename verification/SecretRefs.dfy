/** Placeholder references to secrets. */
module SecretRefs {
  import opened Texts
  import opened Wrappers

  const PREFIX := "rusty:secret:"

  datatype SecretRef = SecretRef(store: string, key: string)

  datatype ParseError = MissingPrefix | InvalidStore(value: string) | InvalidKey(value: string)

  predicate IsLowerOrDigit(c: char) {
    'a' <= c <= 'z' || '0' <= c <= '9'
  }

  predicate SegmentOk(s: string) {
    && 1 <= |s| <= 64 && IsLowerOrDigit(s[0])
    && forall i :: 1 <= i < |s| ==> IsLowerOrDigit(s[i]) || s[i] == '_' || s[i] == '-'
  }

  predicate StartsWith(s: string, prefix: string) {
    |prefix| <= |s| && s[..|prefix|] == prefix
  }

  function Parse(s: string): Result<SecretRef, ParseError> {
    if !StartsWith(s, PREFIX) then Err(MissingPrefix)
    else
      var rest := s[|PREFIX|..];
      var halves := SplitOnce(rest, ':');
      if halves.None? then Err(InvalidStore(rest))
      else if !SegmentOk(halves.value.0) then Err(InvalidStore(halves.value.0))
      else if !SegmentOk(halves.value.1) then Err(InvalidKey(halves.value.1))
      else Ok(SecretRef(halves.value.0, halves.value.1))
  }

  function Display(r: SecretRef): string {
    PREFIX + r.store + ":" + r.key
  }

  /** The reference types can hold exactly what parsing yields. */
  predicate RefOk(r: SecretRef) {
    SegmentOk(r.store) && SegmentOk(r.key)
  }

  /** Parsing and displaying are inverse to each other: a text parses to a
      reference exactly when it is that reference's text. */
  lemma ParseIsInverseOfDisplay(s: string, r: SecretRef)
    ensures Parse(s) == Ok(r) <==> RefOk(r) && s == Display(r)
  {
    hide SegmentOk;
    if RefOk(r) && s == Display(r) {
      assert s[..|PREFIX|] == PREFIX;
      assert s[|PREFIX|..] == r.store + [':'] + r.key;
      NoColon(r.store);
      SplitOnceAt(r.store, r.key, ':');
    }
    if Parse(s) == Ok(r) {
      assert s == PREFIX + s[|PREFIX|..];
    }
  }

  lemma NoColon(s: string)
    requires SegmentOk(s)
    ensures ':' !in s
  {
  }

  /** One to 64 small letters, digits, underscores and hyphens, the first of them a
      letter or a digit. */
  ghost predicate Segment(s: string) {
    && 1 <= |s| <= 64 && (Small(s[0]) || Numeric(s[0]))
    && forall c :: c in s ==> Small(c) || Numeric(c) || c == '_' || c == '-'
  }

  lemma SegmentExactly(s: string)
    ensures SegmentOk(s) <==> Segment(s)
  {
    hide Small, Numeric;
    forall i | 0 <= i < |s| ensures Small(s[i]) || Numeric(s[i]) <==> IsLowerOrDigit(s[i]) {
      Alphabets(s[i]);
    }
  }

  /** What parses, and what is refused for what, told from the text. */
  lemma ParseExactly(s: string, r: SecretRef, value: string)
    ensures Parse(s) == Ok(r) <==>
              s == "rusty:secret:" + r.store + ":" + r.key && Segment(r.store) && Segment(r.key)
    ensures Parse(s) == Err(MissingPrefix) <==> !("rusty:secret:" <= s)
    ensures Parse(s) == Err(InvalidStore(value)) <==>
              || (s == "rusty:secret:" + value && ':' !in value)
              || (':' !in value && !Segment(value) && "rusty:secret:" + value + ":" <= s)
    ensures Parse(s) == Err(InvalidKey(value)) <==>
              exists store :: Segment(store) && !Segment(value) && s == "rusty:secret:" + store + ":" + value
  {
    hide Segment, SegmentOk, SplitOnce;
    forall t ensures SegmentOk(t) <==> Segment(t) {
      SegmentExactly(t);
    }
    ParseIsInverseOfDisplay(s, r);
    if PREFIX <= s {
      var rest := s[|PREFIX|..];
      assert s == PREFIX + rest;
      StoreIsRefused(s, rest, value);
      KeyIsRefused(s, rest, value);
    }
  }

  lemma StoreIsRefused(s: string, rest: string, value: string)
    requires s == PREFIX + rest
    ensures Parse(s) == Err(InvalidStore(value)) <==>
              || (s == PREFIX + value && ':' !in value)
              || (':' !in value && !SegmentOk(value) && PREFIX + value + ":" <= s)
  {
    hide SegmentOk, SplitOnce;
    assert s[|PREFIX|..] == rest;
    var halves := SplitOnce(rest, ':');
    assert PREFIX + value == s ==> value == rest;
    if halves.Some? {
      var store, key := halves.value.0, halves.value.1;
      assert s == PREFIX + store + ":" + key;
      assert PREFIX + store + ":" <= s;
    }
    if ':' !in value && PREFIX + value + ":" <= s {
      var key := s[|PREFIX + value| + 1..];
      assert rest == value + [':'] + key;
      SplitOnceAt(value, key, ':');
    }
  }

  lemma KeyIsRefused(s: string, rest: string, value: string)
    requires s == PREFIX + rest
    ensures Parse(s) == Err(InvalidKey(value)) <==>
              exists store :: SegmentOk(store) && !SegmentOk(value) && s == PREFIX + store + ":" + value
  {
    hide SegmentOk, SplitOnce;
    assert s[|PREFIX|..] == rest;
    var halves := SplitOnce(rest, ':');
    if halves.Some? {
      assert s == PREFIX + halves.value.0 + ":" + halves.value.1;
    }
    forall store | SegmentOk(store) && s == PREFIX + store + ":" + value
      ensures halves == Some((store, value))
    {
      NoColon(store);
      SplitOnceAt(store, value, ':');
      assert rest == store + [':'] + value;
    }
  }

  lemma ParseIsInjective(s: string, t: string)
    requires Parse(s).Ok? && Parse(s) == Parse(t)
    ensures s == t
  {
    ParseIsInverseOfDisplay(s, Parse(s).value);
    ParseIsInverseOfDisplay(t, Parse(t).value);
  }
}
