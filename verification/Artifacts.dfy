/** Run artifacts: content-addressed records whose versions accumulate under a
    name. */
module Artifacts {
  import opened Wrappers
  import Hex

  const MAX_NAME_LEN: nat := 128

  datatype Version = Version(sha256: string, bytes: nat, committedAt: int)

  /** What a commit declares. The media, lineage and retention fields are carried
      as given. */
  datatype Declaration = Declaration(
    sha256: string, bytes: nat, name: Option<string>, mediaKind: string, mediaType: Option<string>,
    effectId: string, lineage: string, retention: string, committedAt: int)

  datatype Record = Record(
    artifactId: string, name: Option<string>, mediaKind: string, mediaType: Option<string>,
    effectId: string, lineage: string, versions: seq<Version>, retention: string, createdAt: int)

  datatype Commitment = Commitment(
    artifactId: string, name: Option<string>, version: Option<nat>, mediaKind: string, bytes: nat,
    effectId: string, retention: string)

  datatype ArtifactError = InvalidAddress | InvalidName | UnnamedHead | OtherName

  // ------------------------------------------------------------------
  // Names and addresses.
  // ------------------------------------------------------------------

  predicate AddressOk(address: string) {
    |address| == 64 && forall i :: 0 <= i < 64 ==> Hex.LowerHex(address[i])
  }

  predicate IsControl(c: char) {
    c as int < 0x20 || 0x7F <= c as int < 0xA0
  }

  predicate IsWhitespace(c: char) {
    var n := c as int;
    || 9 <= n <= 13 || n == 0x20 || n == 0x85 || n == 0xA0 || n == 0x1680 || 0x2000 <= n <= 0x200A
    || n == 0x2028 || n == 0x2029 || n == 0x202F || n == 0x205F || n == 0x3000
  }

  /** Octets of a character in UTF-8. */
  function EncodedLength(s: string): nat {
    if s == "" then 0
    else
      var n := s[0] as int;
      (if n < 0x80 then 1 else if n < 0x800 then 2 else if n < 0x1_0000 then 3 else 4) + EncodedLength(s[1..])
  }

  predicate NameOk(name: string) {
    && name != "" && EncodedLength(name) <= MAX_NAME_LEN
    && !IsWhitespace(name[0]) && !IsWhitespace(name[|name| - 1])
    && forall i :: 0 <= i < |name| ==> !IsControl(name[i]) && name[i] != '@' && name[i] != '/'
  }

  /** An address is what 32 octets are written as. */
  lemma AddressExactly(address: string)
    ensures AddressOk(address) <==> exists octets :: |octets| == 32 && Hex.Encode(octets) == address
  {
    hide Hex.Encode, Hex.Decode;
    if AddressOk(address) {
      Hex.LowerHexDecodes(address);
      Hex.EncodeUndoesDecode(address);
    }
  }

  lemma {:induction false} LengthIsInOctets(s: string)
    ensures EncodedLength(s) == |Hex.Utf8(s)|
  {
    if s != "" {
      LengthIsInOctets(s[1..]);
      Hex.Utf8CharHoldsTheCodePoint(s[0]);
    }
  }

  /** The code points with the Unicode property White_Space. */
  ghost const WHITE_SPACE: set<int> := {
    0x09, 0x0A, 0x0B, 0x0C, 0x0D, 0x20, 0x85, 0xA0, 0x1680, 0x2000, 0x2001, 0x2002, 0x2003,
    0x2004, 0x2005, 0x2006, 0x2007, 0x2008, 0x2009, 0x200A, 0x2028, 0x2029, 0x202F, 0x205F, 0x3000
  }

  lemma WhitespaceExactly(c: char)
    ensures IsWhitespace(c) <==> c as int in WHITE_SPACE
  {
  }

  /** A name takes one to 128 octets, has no space at either end, and holds neither
      the 65 control characters nor the two that references are made with. */
  lemma NameExactly(name: string)
    ensures NameOk(name) <==>
            && name != "" && |Hex.Utf8(name)| <= 128
            && name[0] as int !in WHITE_SPACE && name[|name| - 1] as int !in WHITE_SPACE
            && forall i :: 0 <= i < |name| ==>
                 (32 <= name[i] as int < 127 || 160 <= name[i] as int) && name[i] != '@' && name[i] != '/'
  {
    hide IsWhitespace, Hex.Utf8Char;
    LengthIsInOctets(name);
    if name != "" {
      WhitespaceExactly(name[0]);
      WhitespaceExactly(name[|name| - 1]);
    }
  }

  // ------------------------------------------------------------------
  // Commit and append.
  // ------------------------------------------------------------------

  function VersionOf(d: Declaration): Version {
    Version(d.sha256, d.bytes, d.committedAt)
  }

  function RecordOf(d: Declaration, name: Option<string>, versions: seq<Version>): Record {
    Record(d.sha256, name, d.mediaKind, d.mediaType, d.effectId, d.lineage, versions, d.retention, d.committedAt)
  }

  function CommitmentOf(d: Declaration, r: Record): Commitment {
    Commitment(d.sha256, r.name, if r.versions == [] then None else Some(|r.versions| - 1),
               d.mediaKind, d.bytes, r.effectId, d.retention)
  }

  function Commit(d: Declaration): Result<(Record, Commitment), ArtifactError> {
    if !AddressOk(d.sha256) then Err(InvalidAddress)
    else if d.name.Some? && !NameOk(d.name.value) then Err(InvalidName)
    else
      var r := RecordOf(d, d.name, if d.name.Some? then [VersionOf(d)] else []);
      Ok((r, CommitmentOf(d, r)))
  }

  function Append(head: Record, d: Declaration): Result<(Record, Commitment), ArtifactError> {
    if !AddressOk(d.sha256) then Err(InvalidAddress)
    else if head.name.None? then Err(UnnamedHead)
    else if d.name != head.name then Err(OtherName)
    else if !NameOk(head.name.value) then Err(InvalidName)
    else
      var r := RecordOf(d, head.name, head.versions + [VersionOf(d)]);
      Ok((r, CommitmentOf(d, r)))
  }

  /** The head of a sequence after more declarations; a refused one changes
      nothing. */
  function HeadAfter(head: Record, ds: seq<Declaration>): Record {
    if ds == [] then head
    else
      var before := HeadAfter(head, ds[..|ds| - 1]);
      var next := Append(before, ds[|ds| - 1]);
      if next.Ok? then next.value.0 else before
  }

  // ------------------------------------------------------------------
  // What every reachable record is.
  // ------------------------------------------------------------------

  /** A named head is its own last version, and every address is well formed. */
  ghost predicate IsHead(r: Record, name: string) {
    && r.name == Some(name) && NameOk(name)
    && r.versions != [] && r.versions[|r.versions| - 1].sha256 == r.artifactId
    && forall i :: 0 <= i < |r.versions| ==> AddressOk(r.versions[i].sha256)
  }

  /** The declarations that join the sequence of `name`. */
  function Joining(ds: seq<Declaration>, name: string): seq<Declaration> {
    if ds == [] then []
    else
      var d := ds[|ds| - 1];
      Joining(ds[..|ds| - 1], name) + (if AddressOk(d.sha256) && d.name == Some(name) then [d] else [])
  }

  function VersionsOf(ds: seq<Declaration>): seq<Version> {
    seq(|ds|, i requires 0 <= i < |ds| => VersionOf(ds[i]))
  }

  /** The stored record and the journaled commitment say the same of the
      declaration they were built from. */
  ghost predicate Agree(r: Record, c: Commitment, d: Declaration) {
    && r.artifactId == c.artifactId == d.sha256 && r.name == c.name == d.name && c.bytes == d.bytes
    && r.mediaKind == c.mediaKind == d.mediaKind && r.mediaType == d.mediaType
    && r.effectId == c.effectId == d.effectId && r.lineage == d.lineage
    && r.retention == c.retention == d.retention && r.createdAt == d.committedAt
    && c.version == if r.versions == [] then None else Some(|r.versions| - 1)
  }

  /** A commit succeeds exactly for a well-formed address and, if named, a
      well-formed name. */
  lemma CommitStarts(d: Declaration)
    ensures Commit(d).Ok? <==> AddressOk(d.sha256) && (d.name.Some? ==> NameOk(d.name.value))
    ensures Commit(d).Ok? ==>
      var (r, c) := Commit(d).value;
      && Agree(r, c, d)
      && if d.name.Some? then IsHead(r, d.name.value) && r.versions == [VersionOf(d)] && c.version == Some(0)
         else r.name.None? && r.versions == [] && c.version.None?
  {
  }

  /** An append succeeds exactly for a well-formed address under the head's own
      name, extends the sequence by one, and commits to the new index. */
  lemma AppendExtends(head: Record, name: string, d: Declaration)
    requires IsHead(head, name)
    ensures Append(head, d).Ok? <==> AddressOk(d.sha256) && d.name == Some(name)
    ensures Append(head, d).Ok? ==>
              var (r, c) := Append(head, d).value;
              && IsHead(r, name) && head.versions < r.versions && r.versions == head.versions + [VersionOf(d)]
              && c.version == Some(|head.versions|) && Agree(r, c, d)
  {
    hide AddressOk, NameOk;
  }

  /** The whole sequence, after any declarations in any order: the first version
      and then exactly those that joined, in order. */
  lemma {:induction false} SequenceIsTheHistory(first: Declaration, name: string, ds: seq<Declaration>)
    requires Commit(first).Ok? && first.name == Some(name)
    ensures var head := HeadAfter(Commit(first).value.0, ds);
      IsHead(head, name) && head.versions == [VersionOf(first)] + VersionsOf(Joining(ds, name))
    decreases |ds|
  {
    hide AddressOk, NameOk, Append, IsHead;
    var start := Commit(first).value.0;
    CommitStarts(first);
    if ds == [] {
      assert VersionsOf(Joining(ds, name)) == [];
    } else {
      var init, d := ds[..|ds| - 1], ds[|ds| - 1];
      SequenceIsTheHistory(first, name, init);
      AppendExtends(HeadAfter(start, init), name, d);
      assert VersionsOf(Joining(init, name) + [d]) == VersionsOf(Joining(init, name)) + [VersionOf(d)];
    }
  }

  /** Earlier heads are prefixes of later ones: what was served stays true. */
  lemma {:induction false} HistoryOnlyGrows(head: Record, name: string, ds: seq<Declaration>)
    requires IsHead(head, name)
    ensures IsHead(HeadAfter(head, ds), name) && head.versions <= HeadAfter(head, ds).versions
    decreases |ds|
  {
    hide Append, IsHead;
    if ds != [] {
      HistoryOnlyGrows(head, name, ds[..|ds| - 1]);
      AppendExtends(HeadAfter(head, ds[..|ds| - 1]), name, ds[|ds| - 1]);
    }
  }

  /** An unnamed record has no sequence to join. */
  lemma {:induction false} UnnamedStaysAlone(head: Record, ds: seq<Declaration>)
    requires head.name.None?
    ensures HeadAfter(head, ds) == head
    ensures forall d :: Append(head, d).Err?
    decreases |ds|
  {
    if ds != [] {
      UnnamedStaysAlone(head, ds[..|ds| - 1]);
    }
  }
}
