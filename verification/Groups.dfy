/**
  Groups whose end tag carries the number of their start tag, as the Protocol Buffers Encoding
  guide asks ("Groups"). The skipper only counts depth; here is what it would take to check the
  numbers, and exactly when the skipper's answer is a field of the strict grammar.
 */
module Groups {
  import opened Basics
  import opened Wire
  import opened Skip

  /** The field number of the tag at the start of t. */
  function Number(t: bytes): int {
    match ReadVarint(t)
    case Varint(tag, _) => tag / 8
    case _ => 0
  }

  type Numbering = bytes -> int

  /** Every group of f ends with the number it starts with. */
  predicate NumbersMatch(number: Numbering, f: Field) {
    match f
    case Single(_) => true
    case Group(start, body, end) => number(start) == number(end) && AllNumbersMatch(number, body)
  }

  predicate AllNumbersMatch(number: Numbering, fs: Fields) {
    fs.MoreFields? ==> NumbersMatch(number, fs.head) && AllNumbersMatch(number, fs.tail)
  }

  /** The strict grammar. */
  ghost predicate Strict(f: Field) {
    WellFormed(f) && NumbersMatch(Number, f)
  }

  /** A group end must carry the number of the innermost open group. */
  predicate Closes(open: seq<int>, delta: Delta, num: int) {
    delta == -1 ==> open != [] && open[0] == num
  }

  function Opened(open: seq<int>, delta: Delta, num: int): seq<int> {
    if delta == 1 then [num] + open else if delta == -1 && open != [] then open[1..] else open
  }

  /** One walk over the tokens with the numbers of the open groups, innermost first, until all are closed. */
  predicate EndsMatch(read: Reader, number: Numbering, t: bytes, open: seq<int>)
    decreases |t|
  {
    match read(t)
    case NoToken(_) => false
    case TokenRead(n, delta) =>
      && n <= |t|
      && Closes(open, delta, number(t))
      && (Opened(open, delta, number(t)) == [] || EndsMatch(read, number, t[n..], Opened(open, delta, number(t))))
  }

  ghost predicate NumbersTokens(number: Numbering) {
    forall k, d, rest | IsToken(k, d) :: number(k + rest) == number(k)
  }

  lemma NumberOfToken()
    ensures NumbersTokens(Number)
  {
    forall k, d, rest | IsToken(k, d) ensures Number(k + rest) == Number(k) {
      var tag: bytes, length: bytes, payload: bytes :| TokenOf(k, d, tag, length, payload);
      ReadVarintThen(tag, length + payload);
      ReadVarintExtend(k, rest);
    }
  }

  lemma {:induction false} TokenStep(read: Reader, number: Numbering, k: bytes, d: Delta, rest: bytes, open: seq<int>)
    requires IsTokenReader(read) && NumbersTokens(number) && IsToken(k, d)
    ensures EndsMatch(read, number, k + rest, open)
       <==> (Closes(open, d, number(k))
             && (Opened(open, d, number(k)) == [] || EndsMatch(read, number, rest, Opened(open, d, number(k)))))
  {
    assert (k + rest)[|k|..] == rest;
    assert read(k + rest) == TokenRead(|k|, d) && number(k + rest) == number(k);
  }

  lemma {:induction false} FieldMatches(read: Reader, number: Numbering, f: Field, rest: bytes, open: seq<int>)
    requires IsTokenReader(read) && NumbersTokens(number) && FieldOver(IsToken, f)
    ensures EndsMatch(read, number, Print(f) + rest, open)
       <==> NumbersMatch(number, f) && (open == [] || EndsMatch(read, number, rest, open))
    decreases f
  {
    match f
    case Single(k) => TokenStep(read, number, k, 0, rest, open);
    case Group(start, body, end) =>
      var after := end + rest;
      assert Print(f) + rest == start + (PrintAll(body) + after);
      FieldsMatch(read, number, body, after, [number(start)] + open);
      GroupMatches(read, number, start, PrintAll(body), end, rest, open, AllNumbersMatch(number, body));
  }

  lemma {:induction false} GroupMatches(read: Reader, number: Numbering, start: bytes, inside: bytes, end: bytes, rest: bytes,
                                        open: seq<int>, insideMatches: bool)
    requires IsTokenReader(read) && NumbersTokens(number) && IsToken(start, 1) && IsToken(end, -1)
    requires EndsMatch(read, number, inside + (end + rest), [number(start)] + open)
        <==> insideMatches && EndsMatch(read, number, end + rest, [number(start)] + open)
    ensures EndsMatch(read, number, start + (inside + (end + rest)), open)
       <==> number(start) == number(end) && insideMatches && (open == [] || EndsMatch(read, number, rest, open))
  {
    var inner := [number(start)] + open;
    assert Opened(open, 1, number(start)) == inner && Opened(inner, -1, number(end)) == open;
    TokenStep(read, number, start, 1, inside + (end + rest), open);
    TokenStep(read, number, end, -1, rest, inner);
  }

  lemma {:induction false} FieldsMatch(read: Reader, number: Numbering, fs: Fields, rest: bytes, open: seq<int>)
    requires IsTokenReader(read) && NumbersTokens(number) && FieldsOver(IsToken, fs) && open != []
    ensures EndsMatch(read, number, PrintAll(fs) + rest, open)
       <==> AllNumbersMatch(number, fs) && EndsMatch(read, number, rest, open)
    decreases fs
  {
    match fs
    case NoFields =>
      assert PrintAll(fs) + rest == rest;
    case MoreFields(head, tail) =>
      assert PrintAll(fs) + rest == Print(head) + (PrintAll(tail) + rest);
      FieldMatches(read, number, head, PrintAll(tail) + rest, open);
      FieldsMatch(read, number, tail, rest, open);
  }

  lemma StrictFieldMatches(f: Field, rest: bytes)
    requires WellFormed(f)
    ensures EndsMatch(ReadToken, Number, Print(f) + rest, []) <==> Strict(f)
  {
    ReadTokenIsTokenReader();
    NumberOfToken();
    FieldMatches(ReadToken, Number, f, rest, []);
  }

  /** The first n bytes are a field of the strict grammar exactly when the skipper returns n and the numbers match on the way. */
  lemma StrictIff(s: bytes, n: nat)
    requires |s| < TWO_63 && n <= |s|
    ensures (exists f :: Strict(f) && Print(f) == s[..n])
       <==> SkipField(s) == Skipped(n) && EndsMatch(ReadToken, Number, s, [])
  {
    assert s == s[..n] + s[n..];
    if f :| Strict(f) && Print(f) == s[..n] {
      SkipPrefix(s, n, f);
      StrictFieldMatches(f, s[n..]);
    }
    if SkipField(s) == Skipped(n) && EndsMatch(ReadToken, Number, s, []) {
      var f := SkipSound(s);
      StrictFieldMatches(f, s[n..]);
    }
  }

  const MISMATCHED: bytes := [0x1b, 0x24]

  lemma MismatchedTokens()
    ensures ReadToken(MISMATCHED) == TokenRead(1, 1) && Number(MISMATCHED) == 3
    ensures ReadToken(MISMATCHED[1..]) == TokenRead(1, -1) && Number(MISMATCHED[1..]) == 4
  {
    assert MISMATCHED[1..] == [0x24];
  }

  lemma {:induction false} MismatchedWalk(read: Reader, number: Numbering, s: bytes)
    requires |s| == 2 && read(s) == TokenRead(1, 1) && read(s[1..]) == TokenRead(1, -1)
    requires number(s) != number(s[1..])
    ensures SkipFrom(read, s, 0, 0) == Skipped(2) && !EndsMatch(read, number, s, [])
  {
    assert !EndsMatch(read, number, s[1..], [number(s)]);
  }

  /** A group opened with number 3 and closed with number 4 is skipped, but is no field of the strict grammar. */
  lemma MismatchedGroupSkipped()
    ensures SkipField(MISMATCHED) == Skipped(2)
    ensures !exists f :: Strict(f) && Print(f) == MISMATCHED
  {
    MismatchedTokens();
    MismatchedWalk(ReadToken, Number, MISMATCHED);
    assert MISMATCHED[..2] == MISMATCHED;
    StrictIff(MISMATCHED, 2);
  }
}
