/**
  Skipping an unknown field.

  The generated skipper walks over tokens with a depth counter. The grammar it recognises is
  recursive: a field is a single token or a group of fields between a start and an end tag.
  Here the counter is proved to recognise exactly one field of that grammar.
 */
module Skip {
  import opened Basics
  import opened Wire

  type pos = n: nat | n > 0 witness 1

  /** A group start goes one level down, a group end one level up. */
  type Delta = d: int | -1 <= d <= 1

  /** What reading a token gives: its length and how it moves the group depth, or an error. */
  datatype TokenResult = TokenRead(len: pos, delta: Delta) | NoToken(error: Error)

  type Reader = bytes -> TokenResult

  /** Reads the token at the start of t; its payload may run past the end of t. */
  function ReadToken(t: bytes): TokenResult {
    match ReadVarint(t)
    case NoVarint(e, _) => NoToken(e)
    case Varint(tag, n) =>
      match tag % 8
      case 0 => (
        match ReadVarint(t[n..])
        case NoVarint(e, _) => NoToken(e)
        case Varint(_, m) => TokenRead(n + m, 0))
      case 1 => TokenRead(n + 8, 0)
      case 2 => (
        match ReadVarint(t[n..])
        case NoVarint(e, _) => NoToken(e)
        case Varint(v, m) => if ToInt64(v) < 0 then NoToken(InvalidLength) else TokenRead(n + m + ToInt64(v), 0))
      case 3 => TokenRead(n, 1)
      case 4 => TokenRead(n, -1)
      case 5 => TokenRead(n + 4, 0)
      case _ => NoToken(IllegalWireType)
  }

  /** What the skipper gives: the index just past the field, which may lie past the end of the input, or an error. */
  datatype SkipResult = Skipped(next: nat) | NotSkipped(error: Error)

  /**
    The skipper's loop with t left to read from index i, at depth `depth`, over tokens read by
    `read`. An index of TWO_63 or more is one that wrapped around to a negative number.
   */
  function SkipFrom(read: Reader, t: bytes, i: nat, depth: nat): (r: SkipResult)
    ensures r.Skipped? ==> i < r.next < TWO_63
    decreases |t|
  {
    if t == [] then NotSkipped(UnexpectedEOF)
    else
      match read(t)
      case NoToken(e) => NotSkipped(e)
      case TokenRead(n, delta) =>
        if depth + delta < 0 then NotSkipped(UnexpectedEndOfGroup)
        else if i + n >= TWO_63 then NotSkipped(InvalidLength)
        else if depth + delta == 0 then Skipped(i + n)
        else if n > |t| then NotSkipped(UnexpectedEOF)
        else SkipFrom(read, t[n..], i + n, depth + delta)
  }

  function SkipField(s: bytes): SkipResult {
    SkipFrom(ReadToken, s, 0, 0)
  }

  // ----- the grammar

  /** The 64-bit number a varint stands for. */
  function VarintValue(s: bytes): uint64 {
    Base128(s) % TWO_64
  }

  /** The payload that a tag's wire type calls for. */
  predicate IsPayload(wireType: int, length: bytes, payload: bytes) {
    match wireType
    case 0 => length == [] && IsVarint(payload)
    case 1 => length == [] && |payload| == 8
    case 2 => IsVarint(length) && VarintValue(length) == |payload| < TWO_63
    case 5 => length == [] && |payload| == 4
    case _ => length == payload == [] && 3 <= wireType <= 4
  }

  function TagDelta(wireType: int): Delta {
    if wireType == 3 then 1 else if wireType == 4 then -1 else 0
  }

  /** k is a tag followed by the payload it calls for; wire types 3 and 4 open and close a group. */
  ghost predicate IsToken(k: bytes, delta: Delta) {
    exists tag: bytes, length: bytes, payload: bytes :: TokenOf(k, delta, tag, length, payload)
  }

  predicate TokenOf(k: bytes, delta: Delta, tag: bytes, length: bytes, payload: bytes) {
    && k == tag + (length + payload)
    && IsVarint(tag)
    && var wireType := VarintValue(tag) % 8;
       && IsPayload(wireType, length, payload)
       && delta == TagDelta(wireType)
  }

  /** A field as a tree of tokens; field numbers of start and end tags need not match, as the source does not compare them. */
  datatype Field = Single(token: bytes) | Group(start: bytes, body: Fields, end: bytes)
  datatype Fields = NoFields | MoreFields(head: Field, tail: Fields)

  function Print(f: Field): bytes {
    match f
    case Single(token) => token
    case Group(start, body, end) => start + (PrintAll(body) + end)
  }

  function PrintAll(fs: Fields): bytes {
    if fs.NoFields? then [] else Print(fs.head) + PrintAll(fs.tail)
  }

  /** The fields made of tokens `token`. */
  ghost predicate FieldOver(token: (bytes, Delta) -> bool, f: Field) {
    match f
    case Single(k) => token(k, 0)
    case Group(start, body, end) => token(start, 1) && FieldsOver(token, body) && token(end, -1)
  }

  ghost predicate FieldsOver(token: (bytes, Delta) -> bool, fs: Fields) {
    fs.MoreFields? ==> FieldOver(token, fs.head) && FieldsOver(token, fs.tail)
  }

  ghost predicate WellFormed(f: Field) {
    FieldOver(IsToken, f)
  }

  // ----- the token reader reads exactly the tokens

  lemma ReadVarintThen(v: bytes, rest: bytes)
    requires IsVarint(v)
    ensures ReadVarint(v + rest) == Varint(VarintValue(v), |v|) && (v + rest)[|v|..] == rest
  {
    ReadVarintComplete(v, rest);
  }

  lemma ReadPlainToken(tag: bytes, payload: bytes, rest: bytes)
    requires IsVarint(tag) && VarintValue(tag) % 8 != 2 && IsPayload(VarintValue(tag) % 8, [], payload)
    ensures ReadToken(tag + (payload + rest))
         == TokenRead(|tag| + |payload|, TagDelta(VarintValue(tag) % 8))
  {
    ReadVarintThen(tag, payload + rest);
    if VarintValue(tag) % 8 == 0 {
      ReadVarintThen(payload, rest);
    }
  }

  lemma ReadLenToken(tag: bytes, length: bytes, payload: bytes, rest: bytes)
    requires IsVarint(tag) && VarintValue(tag) % 8 == 2 && IsPayload(2, length, payload)
    ensures ReadToken(tag + (length + (payload + rest))) == TokenRead(|tag| + |length| + |payload|, 0)
  {
    ReadVarintThen(tag, length + (payload + rest));
    ReadVarintThen(length, payload + rest);
  }

  ghost predicate ReadsPlainTokens(read: Reader) {
    forall tag, payload, rest | IsVarint(tag) && VarintValue(tag) % 8 != 2 && IsPayload(VarintValue(tag) % 8, [], payload)
      :: read(tag + (payload + rest)) == TokenRead(|tag| + |payload|, TagDelta(VarintValue(tag) % 8))
  }

  ghost predicate ReadsLenTokens(read: Reader) {
    forall tag, length, payload, rest | IsVarint(tag) && VarintValue(tag) % 8 == 2 && IsPayload(2, length, payload)
      :: read(tag + (length + (payload + rest))) == TokenRead(|tag| + |length| + |payload|, 0)
  }

  lemma ReadsToken(read: Reader, k: bytes, delta: Delta, rest: bytes)
    requires ReadsPlainTokens(read) && ReadsLenTokens(read) && IsToken(k, delta)
    ensures k != [] && read(k + rest) == TokenRead(|k|, delta)
  {
    var tag: bytes, length: bytes, payload: bytes :| TokenOf(k, delta, tag, length, payload);
    assert k + rest == tag + (length + (payload + rest));
    if VarintValue(tag) % 8 != 2 {
      assert length + (payload + rest) == payload + rest;
    }
  }

  lemma ReadTokenComplete(k: bytes, delta: Delta, rest: bytes)
    requires IsToken(k, delta)
    ensures k != [] && ReadToken(k + rest) == TokenRead(|k|, delta)
  {
    forall tag, payload, rest | IsVarint(tag) && VarintValue(tag) % 8 != 2 && IsPayload(VarintValue(tag) % 8, [], payload)
      ensures ReadToken(tag + (payload + rest)) == TokenRead(|tag| + |payload|, TagDelta(VarintValue(tag) % 8))
    {
      ReadPlainToken(tag, payload, rest);
    }
    forall tag, length, payload, rest | IsVarint(tag) && VarintValue(tag) % 8 == 2 && IsPayload(2, length, payload)
      ensures ReadToken(tag + (length + (payload + rest))) == TokenRead(|tag| + |length| + |payload|, 0)
    {
      ReadLenToken(tag, length, payload, rest);
    }
    ReadsToken(ReadToken, k, delta, rest);
  }

  lemma VarintPart(t: bytes) returns (v: bytes, rest: bytes)
    requires ReadVarint(t).Varint?
    ensures t == v + rest && IsVarint(v) && t[|v|..] == rest
    ensures ReadVarint(t) == Varint(VarintValue(v), |v|)
  {
    var n := ReadVarint(t).len;
    ReadVarintSound(t, 0);
    v, rest := t[..n], t[n..];
  }

  lemma ReadTokenSound(t: bytes)
    requires ReadToken(t).TokenRead? && ReadToken(t).len <= |t|
    ensures IsToken(t[..ReadToken(t).len], ReadToken(t).delta)
  {
    var tag, rest := VarintPart(t);
    var token := ReadToken(t);
    var length, payload := ReadTokenParts(t, tag, rest, token);
    assert TokenOf(t[..token.len], token.delta, tag, length, payload);
  }

  lemma ReadTokenParts(t: bytes, tag: bytes, rest: bytes, token: TokenResult) returns (length: bytes, payload: bytes)
    requires ReadToken(t) == token && token.TokenRead? && token.len <= |t|
    requires t == tag + rest && t[|tag|..] == rest && IsVarint(tag)
    requires ReadVarint(t) == Varint(VarintValue(tag), |tag|)
    ensures t[..token.len] == tag + (length + payload)
    ensures IsPayload(VarintValue(tag) % 8, length, payload)
    ensures token.delta == TagDelta(VarintValue(tag) % 8)
  {
    length, payload := [], t[|tag|..token.len];
    if VarintValue(tag) % 8 == 0 {
      VarintTokenPayload(t, |tag|, token.len);
    } else if VarintValue(tag) % 8 == 2 {
      var after;
      length, after := VarintPart(rest);
      payload := t[|tag| + |length|..token.len];
    }
    assert t[..token.len] == tag + (length + payload);
  }

  lemma VarintTokenPayload(t: bytes, n: nat, len: nat)
    requires n <= len <= |t| && ReadVarint(t[n..]).Varint? && ReadVarint(t[n..]).len == len - n
    ensures IsVarint(t[n..len])
  {
    var value, after := VarintPart(t[n..]);
    assert t[n..len] == t[n..][..len - n] == value;
  }

  // ----- the loop, one token at a time

  type Tokens = (bytes, Delta) -> bool
  type Loop = (bytes, nat, nat) -> SkipResult

  ghost predicate Accepts(run: Loop, t: bytes, i: nat, depth: nat) {
    i + |t| < TWO_63 && run(t, i, depth).Skipped? && run(t, i, depth).next <= i + |t|
  }

  /** What a loop does at depth `depth` over token k of type d with `rest` behind it. */
  ghost predicate Turn(run: Loop, k: bytes, d: Delta, rest: bytes, i: nat, depth: nat)
    requires depth + d >= 0
  {
    run(k + rest, i, depth) == if depth + d == 0 then Skipped(i + |k|) else run(rest, i + |k|, depth + d)
  }

  /** The loop consumes tokens, and input it accepts starts with a token. */
  ghost predicate TakesTokens(run: Loop, read: Reader, token: Tokens) {
    && (forall k, d, rest, i: nat, depth: nat | token(k, d) && depth + d >= 0 && i + |k| + |rest| < TWO_63
          :: k != [] && Turn(run, k, d, rest, i, depth))
    && (forall t, i: nat, depth: nat | Accepts(run, t, i, depth) :: StartsWithToken(read, token, t, depth))
  }

  ghost predicate StartsWithToken(read: Reader, token: Tokens, t: bytes, depth: nat) {
    && read(t).TokenRead?
    && read(t).len <= |t|
    && depth + read(t).delta >= 0
    && token(t[..read(t).len], read(t).delta)
  }

  ghost predicate IsTokenReader(read: Reader) {
    && (forall k, d, rest | IsToken(k, d) :: k != [] && read(k + rest) == TokenRead(|k|, d))
    && (forall t | read(t).TokenRead? && read(t).len <= |t| :: IsToken(t[..read(t).len], read(t).delta))
  }

  lemma ReadTokenIsTokenReader()
    ensures IsTokenReader(ReadToken)
  {
    var read: Reader := ReadToken;
    forall k, d, rest | IsToken(k, d) ensures k != [] && read(k + rest) == TokenRead(|k|, d) {
      ReadTokenComplete(k, d, rest);
    }
    forall t | read(t).TokenRead? && read(t).len <= |t| ensures IsToken(t[..read(t).len], read(t).delta) {
      ReadTokenSound(t);
    }
    assert IsTokenReader(read);
  }

  function Skipper(read: Reader): Loop {
    (t: bytes, i: nat, depth: nat) => SkipFrom(read, t, i, depth)
  }

  lemma SkipperTurn(read: Reader, k: bytes, d: Delta, rest: bytes, i: nat, depth: nat)
    requires IsTokenReader(read) && IsToken(k, d) && depth + d >= 0 && i + |k| + |rest| < TWO_63
    ensures k != [] && Turn(Skipper(read), k, d, rest, i, depth)
  {
    assert read(k + rest) == TokenRead(|k|, d);
    assert (k + rest)[|k|..] == rest;
    assert Skipper(read)(k + rest, i, depth) == SkipFrom(read, k + rest, i, depth);
    if depth + d != 0 {
      assert Skipper(read)(rest, i + |k|, depth + d) == SkipFrom(read, rest, i + |k|, depth + d);
    }
  }

  lemma SkipperStarts(read: Reader, t: bytes, i: nat, depth: nat)
    requires IsTokenReader(read) && Accepts(Skipper(read), t, i, depth)
    ensures StartsWithToken(read, IsToken, t, depth)
  {
  }

  lemma SkipperTakesTokens()
    ensures TakesTokens(Skipper(ReadToken), ReadToken, IsToken)
  {
    ReadTokenIsTokenReader();
    SkipperOverTokens(ReadToken);
  }

  lemma SkipperOverTokens(read: Reader)
    requires IsTokenReader(read)
    ensures TakesTokens(Skipper(read), read, IsToken)
  {
    forall k, d, rest, i: nat, depth: nat | IsToken(k, d) && depth + d >= 0 && i + |k| + |rest| < TWO_63
      ensures k != [] && Turn(Skipper(read), k, d, rest, i, depth)
    {
      SkipperTurn(read, k, d, rest, i, depth);
    }
    forall t, i: nat, depth: nat | Accepts(Skipper(read), t, i, depth)
      ensures StartsWithToken(read, IsToken, t, depth)
    {
      SkipperStarts(read, t, i, depth);
    }
  }

  // ----- the loop accepts every field of the grammar

  lemma {:induction false} SkipOneField(run: Loop, read: Reader, token: Tokens, f: Field, rest: bytes, i: nat, depth: nat)
    requires TakesTokens(run, read, token) && FieldOver(token, f) && i + |Print(f)| + |rest| < TWO_63
    ensures run(Print(f) + rest, i, depth)
         == if depth == 0 then Skipped(i + |Print(f)|) else run(rest, i + |Print(f)|, depth)
    decreases f
  {
    match f
    case Single(k) =>
      assert Turn(run, k, 0, rest, i, depth);
    case Group(start, body, end) =>
      var inner := PrintAll(body) + (end + rest);
      assert Print(f) + rest == start + inner;
      assert Turn(run, start, 1, inner, i, depth);
      SkipManyFields(run, read, token, body, end + rest, i + |start|, depth + 1);
      assert Turn(run, end, -1, rest, i + |start| + |PrintAll(body)|, depth + 1);
  }

  lemma {:induction false} SkipManyFields(run: Loop, read: Reader, token: Tokens, fs: Fields, rest: bytes, i: nat, depth: nat)
    requires TakesTokens(run, read, token) && FieldsOver(token, fs) && i + |PrintAll(fs)| + |rest| < TWO_63 && depth > 0
    ensures run(PrintAll(fs) + rest, i, depth) == run(rest, i + |PrintAll(fs)|, depth)
    decreases fs
  {
    match fs
    case NoFields =>
      assert PrintAll(fs) + rest == rest;
    case MoreFields(head, tail) =>
      assert PrintAll(fs) + rest == Print(head) + (PrintAll(tail) + rest);
      SkipOneField(run, read, token, head, PrintAll(tail) + rest, i, depth);
      SkipManyFields(run, read, token, tail, rest, i + |Print(head)|, depth);
  }

  /** On any well-formed field followed by anything, the skipper stops right after the field. */
  lemma SkipComplete(f: Field, suffix: bytes)
    requires WellFormed(f) && |Print(f)| + |suffix| < TWO_63
    ensures SkipField(Print(f) + suffix) == Skipped(|Print(f)|)
  {
    SkipperTakesTokens();
    SkipOneField(Skipper(ReadToken), ReadToken, IsToken, f, suffix, 0, 0);
    assert Skipper(ReadToken)(Print(f) + suffix, 0, 0) == SkipField(Print(f) + suffix);
  }

  // ----- and nothing else

  /** The first token of accepted input, and what follows it. */
  datatype Split = Split(token: bytes, delta: Delta, rest: bytes)

  ghost predicate IsSplit(run: Loop, token: Tokens, t: bytes, i: nat, depth: nat, c: Split) {
    && token(c.token, c.delta) && depth + c.delta >= 0
    && t == c.token + c.rest && |c.rest| < |t|
    && run(t, i, depth)
       == if depth + c.delta == 0 then Skipped(i + |c.token|) else run(c.rest, i + |c.token|, depth + c.delta)
  }

  lemma FirstToken(run: Loop, read: Reader, token: Tokens, t: bytes, i: nat, depth: nat) returns (c: Split)
    requires TakesTokens(run, read, token) && Accepts(run, t, i, depth)
    ensures IsSplit(run, token, t, i, depth, c)
  {
    assert StartsWithToken(read, token, t, depth);
    var n := read(t).len;
    c := Split(t[..n], read(t).delta, t[n..]);
    assert t == c.token + c.rest;
    assert Turn(run, c.token, c.delta, c.rest, i, depth);
  }

  /** The rest of a group: the fields up to its end tag, and what follows. */
  datatype GroupRest = GroupRest(body: Fields, end: bytes, rest: bytes)

  ghost predicate IsGroupRest(token: Tokens, t: bytes, g: GroupRest) {
    FieldsOver(token, g.body) && token(g.end, -1) && t == PrintAll(g.body) + (g.end + g.rest) && |g.rest| < |t|
  }

  /**
    Inside a group, an accepted input starts with the rest of the group's body and an end tag;
    past it the loop goes on one level up.
   */
  lemma {:induction false} ParseGroup(run: Loop, read: Reader, token: Tokens, t: bytes, i: nat, depth: nat)
    returns (g: GroupRest)
    requires TakesTokens(run, read, token) && depth > 0 && Accepts(run, t, i, depth)
    ensures IsGroupRest(token, t, g)
    ensures var n := i + |PrintAll(g.body)| + |g.end|;
            run(t, i, depth) == if depth == 1 then Skipped(n) else run(g.rest, n, depth - 1)
    decreases |t|, 1
  {
    var c := FirstToken(run, read, token, t, i, depth);
    if c.delta == -1 {
      g := GroupRest(NoFields, c.token, c.rest);
      assert t == PrintAll(NoFields) + (c.token + c.rest);
    } else {
      var f, afterField := ParseField(run, read, token, t, i, depth, c);
      var h := ParseGroup(run, read, token, afterField, i + |Print(f)|, depth);
      g := GroupRest(MoreFields(f, h.body), h.end, h.rest);
      assert t == PrintAll(g.body) + (g.end + g.rest);
    }
  }

  /** A token that is not an end tag starts a field. */
  lemma {:induction false} ParseField(run: Loop, read: Reader, token: Tokens, t: bytes, i: nat, depth: nat, c: Split)
    returns (f: Field, rest: bytes)
    requires TakesTokens(run, read, token) && Accepts(run, t, i, depth)
    requires IsSplit(run, token, t, i, depth, c) && c.delta != -1
    ensures FieldOver(token, f) && t == Print(f) + rest && |rest| < |t|
    ensures var n := i + |Print(f)|;
            run(t, i, depth) == if depth == 0 then Skipped(n) else run(rest, n, depth)
    decreases |t|, 0
  {
    if c.delta == 0 {
      f, rest := Single(c.token), c.rest;
    } else {
      var g := ParseGroup(run, read, token, c.rest, i + |c.token|, depth + 1);
      f, rest := Group(c.token, g.body, g.end), g.rest;
      assert t == Print(f) + rest;
    }
  }

  /** If the skipper stops inside the input, what it skipped is exactly one well-formed field. */
  lemma SkipSound(s: bytes) returns (f: Field)
    requires |s| < TWO_63 && SkipField(s).Skipped? && SkipField(s).next <= |s|
    ensures WellFormed(f) && s[..SkipField(s).next] == Print(f)
  {
    SkipperTakesTokens();
    var run := Skipper(ReadToken);
    assert run(s, 0, 0) == SkipField(s);
    var c := FirstToken(run, ReadToken, IsToken, s, 0, 0);
    var rest;
    f, rest := ParseField(run, ReadToken, IsToken, s, 0, 0, c);
  }

  lemma SkipPrefix(s: bytes, n: nat, f: Field)
    requires |s| < TWO_63 && n <= |s| && WellFormed(f) && Print(f) == s[..n]
    ensures SkipField(s) == Skipped(n)
  {
    assert s == Print(f) + s[n..];
    SkipComplete(f, s[n..]);
  }

  /** The skipper and the grammar agree: both directions in one statement. */
  lemma SkipIffField(s: bytes, n: nat)
    requires |s| < TWO_63 && n <= |s|
    ensures SkipField(s) == Skipped(n) <==> exists f :: WellFormed(f) && Print(f) == s[..n]
  {
    if SkipField(s) == Skipped(n) {
      var f := SkipSound(s);
    }
    if f :| WellFormed(f) && Print(f) == s[..n] {
      SkipPrefix(s, n, f);
    }
  }

  /** No well-formed field is a proper prefix of another. */
  lemma FieldsArePrefixFree(f: Field, g: Field, t: bytes)
    requires WellFormed(f) && WellFormed(g) && Print(f) + t == Print(g) && |Print(g)| < TWO_63
    ensures t == []
  {
    SkipComplete(f, t);
    SkipComplete(g, []);
    assert Print(g) + [] == Print(g);
  }
}
