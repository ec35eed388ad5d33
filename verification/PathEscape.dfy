/**
 `pathEscape` of openwa/sdk/go/client.go: Go's path-segment escaper followed by a rewrite pass that
 puts '@', ':' and '+' back.

 The escaper is modelled for any set of bytes it may leave alone, as long as that set holds none of
 '%', '/', '?' and '#'; Go's own set is one instance. Section 2.1 of RFC 3986 gives the triples,
 section 3.3 what a path segment may hold.
 */
module PathEscape {
  import opened Options

  type byte = b: int | 0 <= b < 256

  const PERCENT: byte := '%' as int
  const AT: byte := '@' as int
  const COLON: byte := ':' as int
  const PLUS: byte := '+' as int

  /** '/', '?' and '#' would end the segment; '%' would read as the start of a triple. */
  const BREAKING: set<byte> := {'/' as int, '?' as int, '#' as int}

  ghost predicate Admissible(keep: set<byte>) { PERCENT !in keep && keep !! BREAKING }

  function Hex(d: int): byte
    requires 0 <= d < 16
  {
    if d < 10 then '0' as int + d else 'A' as int + (d - 10)
  }

  function Unhex(b: byte): Option<int> {
    if '0' as int <= b <= '9' as int then Some(b - '0' as int)
    else if 'A' as int <= b <= 'F' as int then Some(b - 'A' as int + 10)
    else if 'a' as int <= b <= 'f' as int then Some(b - 'a' as int + 10)
    else None
  }

  function Triple(b: byte): seq<byte> { [PERCENT, Hex(b / 16), Hex(b % 16)] }

  function Code(keep: set<byte>, b: byte): seq<byte> { if b in keep then [b] else Triple(b) }

  function Escape(keep: set<byte>, s: seq<byte>): seq<byte> {
    if s == [] then [] else Code(keep, s[0]) + Escape(keep, s[1..])
  }

  /** Percent-decoding of a path; a '%' that starts no triple is an error. */
  function Decode(s: seq<byte>): Option<seq<byte>> {
    if s == [] then Some([])
    else if s[0] != PERCENT then
      var rest := Decode(s[1..]);
      if rest.Some? then Some([s[0]] + rest.value) else None
    else if |s| < 3 || Unhex(s[1]).None? || Unhex(s[2]).None? then None
    else
      var rest := Decode(s[3..]);
      if rest.Some? then Some([16 * Unhex(s[1]).value + Unhex(s[2]).value] + rest.value) else None
  }

  predicate StartsWithTriple(s: seq<byte>, b: byte) {
    |s| >= 3 && s[0] == PERCENT && s[1] == Hex(b / 16) && s[2] == Hex(b % 16)
  }

  /** What the rewrite pass puts in place of the triple that starts s, if it replaces it at all. */
  function Restored(s: seq<byte>): Option<byte> {
    if StartsWithTriple(s, AT) then Some(AT)
    else if StartsWithTriple(s, COLON) then Some(COLON)
    else if StartsWithTriple(s, PLUS) then Some(PLUS)
    else None
  }

  /** The replacer: one pass from the left, taking the first old string that matches. */
  function Restore(s: seq<byte>): seq<byte>
    decreases |s|
  {
    if s == [] then []
    else if Restored(s).Some? then [Restored(s).value] + Restore(s[3..])
    else [s[0]] + Restore(s[1..])
  }

  const RESTORABLE: set<byte> := {AT, COLON, PLUS}

  lemma UnhexHex(b: byte)
    ensures Unhex(Hex(b / 16)) == Some(b / 16) && Unhex(Hex(b % 16)) == Some(b % 16)
  {
  }

  /** A hexadecimal digit never starts a triple, so the pass walks over a triple it does not replace. */
  lemma RestoreTriple(b: byte, rest: seq<byte>)
    ensures Restore(Triple(b) + rest) == (if b in RESTORABLE then [b] else Triple(b)) + Restore(rest)
  {
    var s := Triple(b) + rest;
    assert s[3..] == rest;
    forall r: byte | StartsWithTriple(s, r) ensures r == b {
      UnhexHex(r);
      UnhexHex(b);
    }
    if b !in RESTORABLE {
      var h, l := Hex(b / 16), Hex(b % 16);
      RestoreLiteral(l, rest);
      RestoreLiteral(h, [l] + rest);
      assert s[1..] == [h] + ([l] + rest);
      assert Restore(s) == [PERCENT] + ([h] + ([l] + Restore(rest)));
    }
  }

  lemma RestoreLiteral(b: byte, rest: seq<byte>)
    requires b != PERCENT
    ensures Restore([b] + rest) == [b] + Restore(rest)
  {
  }

  /** The rewrite pass after the escaper is the escaper with three more bytes left alone. */
  lemma {:induction false} RestoreIsWiderEscape(keep: set<byte>, s: seq<byte>)
    requires Admissible(keep)
    ensures Restore(Escape(keep, s)) == Escape(keep + RESTORABLE, s)
  {
    if s != [] {
      var rest := Escape(keep, s[1..]);
      RestoreIsWiderEscape(keep, s[1..]);
      if s[0] in keep { RestoreLiteral(s[0], rest); } else { RestoreTriple(s[0], rest); }
    }
  }

  lemma {:induction false} DecodeEscape(keep: set<byte>, s: seq<byte>)
    requires Admissible(keep)
    ensures Decode(Escape(keep, s)) == Some(s)
  {
    if s != [] {
      var rest := Escape(keep, s[1..]);
      DecodeEscape(keep, s[1..]);
      UnhexHex(s[0]);
      var e := Code(keep, s[0]) + rest;
      assert s[0] in keep ==> e[1..] == rest;
      assert s[0] !in keep ==> e[3..] == rest;
      assert s == [s[0]] + s[1..];
    }
  }

  lemma {:induction false} EscapeStaysInSegment(keep: set<byte>, s: seq<byte>)
    requires Admissible(keep)
    ensures forall b :: b in Escape(keep, s) ==> b !in BREAKING
  {
    if s != [] { EscapeStaysInSegment(keep, s[1..]); }
  }

  // ---------------------------------------------------------------- Go's escaper

  predicate Alphanumeric(b: byte) {
    'a' as int <= b <= 'z' as int || 'A' as int <= b <= 'Z' as int || '0' as int <= b <= '9' as int
  }

  /** The unreserved marks, and the reserved characters Go leaves alone in a path segment. */
  const GO_MARKS: set<byte> := {'-' as int, '_' as int, '.' as int, '~' as int, '$' as int, '&' as int, PLUS, COLON,
                                '=' as int, AT}

  const GO_KEEP: set<byte> := set b: byte | Alphanumeric(b) || b in GO_MARKS

  function PathEscape(segment: seq<byte>): seq<byte> { Restore(Escape(GO_KEEP, segment)) }

  lemma PathEscapeRoundTrip(segment: seq<byte>)
    ensures Decode(PathEscape(segment)) == Some(segment)
    ensures forall b :: b in PathEscape(segment) ==> b !in BREAKING
  {
    RestoreIsWiderEscape(GO_KEEP, segment);
    DecodeEscape(GO_KEEP + RESTORABLE, segment);
    EscapeStaysInSegment(GO_KEEP + RESTORABLE, segment);
  }

  /** The same for any escaper that keeps '%' and the breaking bytes out, so the result does not rest on Go's table. */
  lemma RoundTripForAnyEscaper(keep: set<byte>, segment: seq<byte>)
    requires Admissible(keep)
    ensures Decode(Restore(Escape(keep, segment))) == Some(segment)
    ensures forall b :: b in Restore(Escape(keep, segment)) ==> b !in BREAKING
  {
    RestoreIsWiderEscape(keep, segment);
    DecodeEscape(keep + RESTORABLE, segment);
    EscapeStaysInSegment(keep + RESTORABLE, segment);
  }

  /** Different segments never meet in one path. */
  lemma PathEscapeInjective(s: seq<byte>, t: seq<byte>)
    requires PathEscape(s) == PathEscape(t)
    ensures s == t
  {
    PathEscapeRoundTrip(s);
    PathEscapeRoundTrip(t);
  }

  /** Go already leaves '@', ':' and '+' alone in a segment, so the rewrite pass changes nothing there. */
  lemma RestorerIsIdleOnGo(segment: seq<byte>)
    ensures PathEscape(segment) == Escape(GO_KEEP, segment)
  {
    RestoreIsWiderEscape(GO_KEEP, segment);
    assert GO_KEEP + RESTORABLE == GO_KEEP;
  }

  // ---------------------------------------------------------------- byte by byte

  const DIGITS := "0123456789ABCDEF"

  /** Letters, digits and the ten marks a path segment may hold besides them. */
  predicate Readable(b: byte) {
    var c := b as char;
    'a' <= c <= 'z' || 'A' <= c <= 'Z' || '0' <= c <= '9' || c in "-_.~$&+:=@"
  }

  /** A readable byte stands for itself; any other is written as '%' and two hexadecimal digits in capitals. */
  lemma ByteEscaped(b: byte)
    ensures PathEscape([b]) ==
      if Readable(b) then [b] else ['%' as int, DIGITS[b / 16] as int, DIGITS[b % 16] as int]
  {
    RestorerIsIdleOnGo([b]);
    assert Escape(GO_KEEP, [b]) == Code(GO_KEEP, b) + [];
    HexDigit(b / 16);
    HexDigit(b % 16);
    ReadableKept(b);
  }

  lemma HexDigit(d: int)
    requires 0 <= d < 16
    ensures Hex(d) == DIGITS[d] as int
  {
  }

  lemma ReadableKept(b: byte)
    ensures b in GO_KEEP <==> Readable(b)
  {
  }

  /** And a segment is escaped byte by byte. */
  lemma EscapedPiecewise(s: seq<byte>, t: seq<byte>)
    ensures PathEscape(s + t) == PathEscape(s) + PathEscape(t)
  {
    RestorerIsIdleOnGo(s);
    RestorerIsIdleOnGo(t);
    RestorerIsIdleOnGo(s + t);
    EscapeConcat(GO_KEEP, s, t);
  }

  lemma {:induction false} EscapeConcat(keep: set<byte>, s: seq<byte>, t: seq<byte>)
    ensures Escape(keep, s + t) == Escape(keep, s) + Escape(keep, t)
  {
    if s == [] {
      assert s + t == t;
    } else {
      assert (s + t)[1..] == s[1..] + t;
      EscapeConcat(keep, s[1..], t);
    }
  }

  /** In particular a WhatsApp id is left as it is. */
  lemma {:induction false} ReadableUnchanged(s: seq<byte>)
    requires forall b :: b in s ==> Readable(b)
    ensures PathEscape(s) == s
  {
    if s != [] {
      var first := [s[0]];
      assert s == first + s[1..];
      EscapedPiecewise(first, s[1..]);
      ByteEscaped(s[0]);
      ReadableUnchanged(s[1..]);
    } else {
      assert PathEscape([]) == [];
    }
  }
}
