/**
  Chain identifiers of the form name_id-epoch.

  The regular expression is anchored, so it describes a set of strings: a name of lowercase
  letters, an underscore, a number, a dash, a number, neither number starting with a zero.
  The matcher below finds the three parts; it is proved to find them exactly when they exist.
 */
module ChainId {
  import opened Basics

  // ----- characters and strings

  /** Unicode white space, which strings.TrimSpace removes. */
  predicate IsSpace(c: char) {
    || '\t' <= c <= '\r' || c == ' '
    || c == '\U{0085}' || c == '\U{00A0}' || c == '\U{1680}'
    || '\U{2000}' <= c <= '\U{200a}'
    || c == '\U{2028}' || c == '\U{2029}' || c == '\U{202f}' || c == '\U{205f}' || c == '\U{3000}'
  }

  function TrimLeft(s: string): string {
    if s != [] && IsSpace(s[0]) then TrimLeft(s[1..]) else s
  }

  function TrimRight(s: string): string {
    if s != [] && IsSpace(s[|s| - 1]) then TrimRight(s[..|s| - 1]) else s
  }

  function TrimSpace(s: string): string {
    TrimRight(TrimLeft(s))
  }

  /** Go's len: the number of UTF-8 bytes. */
  function Len(s: string): nat {
    if s == [] then 0
    else (if s[0] < '\U{0080}' then 1 else if s[0] < '\U{0800}' then 2 else if s[0] < '\U{10000}' then 3 else 4) + Len(s[1..])
  }

  predicate IsLower(c: char) { 'a' <= c <= 'z' }

  predicate IsDigit(c: char) { '0' <= c <= '9' }

  // ----- decimal numbers

  function Digit(c: char): nat
    requires IsDigit(c)
  {
    (c - '0') as int
  }

  function DigitChar(d: nat): (c: char)
    requires d < 10
    ensures IsDigit(c) && Digit(c) == d
  {
    '0' + d as char
  }

  predicate AllDigits(s: string) {
    forall i | 0 <= i < |s| :: IsDigit(s[i])
  }

  predicate IsNumeral(s: string) {
    s != [] && s[0] != '0' && AllDigits(s)
  }

  /** The value of a digit string in base 10. */
  function DecimalValue(s: string): nat
    requires AllDigits(s)
  {
    if s == [] then 0 else 10 * DecimalValue(s[..|s| - 1]) + Digit(s[|s| - 1])
  }

  function ToDecimal(n: nat): (s: string)
    ensures s != [] && AllDigits(s)
  {
    if n < 10 then [DigitChar(n)] else ToDecimal(n / 10) + [DigitChar(n % 10)]
  }

  lemma {:induction false} DecimalRoundTrip(n: nat)
    ensures DecimalValue(ToDecimal(n)) == n
    ensures n > 0 ==> IsNumeral(ToDecimal(n))
  {
    var s := ToDecimal(n);
    if n >= 10 {
      DecimalRoundTrip(n / 10);
      assert s[..|s| - 1] == ToDecimal(n / 10);
    } else {
      assert s[..|s| - 1] == [];
    }
  }

  lemma {:induction false} NumeralPositive(s: string)
    requires IsNumeral(s)
    ensures DecimalValue(s) > 0
  {
    if |s| > 1 {
      NumeralPositive(s[..|s| - 1]);
    }
  }

  /** Printing 10 * n + d prints n and then the digit d. */
  lemma NextDigit(n: nat, front: string, c: char, v: nat)
    requires n > 0 && IsDigit(c) && ToDecimal(n) == front && v == 10 * n + Digit(c)
    ensures ToDecimal(v) == front + [c]
  {
    assert v / 10 == n && v % 10 == Digit(c);
  }

  /** A numeral without leading zeros is the printed form of its value. */
  lemma {:induction false} NumeralRoundTrip(s: string)
    requires IsNumeral(s)
    ensures ToDecimal(DecimalValue(s)) == s
  {
    var front, last := s[..|s| - 1], s[|s| - 1];
    assert s == front + [last];
    if front == [] {
      assert DecimalValue(s) == Digit(last);
    } else {
      NumeralPositive(front);
      NumeralRoundTrip(front);
      NextDigit(DecimalValue(front), front, last, DecimalValue(s));
    }
  }

  // ----- the expression and its matcher

  datatype Parts = Parts(name: string, id: string, epoch: string)

  function Join(p: Parts): string {
    p.name + ("_" + (p.id + ("-" + p.epoch)))
  }

  predicate IsName(s: string) {
    s != [] && forall i | 0 <= i < |s| :: IsLower(s[i])
  }

  predicate ValidParts(p: Parts) {
    IsName(p.name) && IsNumeral(p.id) && IsNumeral(p.epoch)
  }

  /** The length of the longest prefix of s whose characters satisfy p. */
  function Span(s: string, p: char -> bool): (n: nat)
    ensures n <= |s| && (forall i | 0 <= i < n :: p(s[i])) && (n < |s| ==> !p(s[n]))
  {
    if s != [] && p(s[0]) then 1 + Span(s[1..], p) else 0
  }

  /** Cuts s at character c after a run of characters that satisfy p. */
  function Cut(s: string, p: char -> bool, c: char): Option<(string, string)> {
    var n := Span(s, p);
    if n == 0 || n == |s| || s[n] != c then None else Some((s[..n], s[n + 1..]))
  }

  /** The submatches of the expression. */
  function FindParts(s: string): Option<Parts> {
    match Cut(s, IsLower, '_')
    case None => None
    case Some((name, afterName)) =>
      match Cut(afterName, IsDigit, '-')
      case None => None
      case Some((id, epoch)) => if IsNumeral(id) && IsNumeral(epoch) then Some(Parts(name, id, epoch)) else None
  }

  /** The span ends where the property first fails. */
  lemma SpanEnds(s: string, n: nat, p: char -> bool)
    requires n < |s| && (forall i | 0 <= i < n :: p(s[i])) && !p(s[n])
    ensures Span(s, p) == n
  {
  }

  lemma JoinedAt(a: string, c: char, b: string)
    ensures var s := a + ([c] + b); s[..|a|] == a && s[|a|] == c && s[|a| + 1..] == b
  {
  }

  lemma SplitsAt(s: string, n: nat)
    requires n < |s|
    ensures s == s[..n] + ([s[n]] + s[n + 1..])
  {
  }

  lemma CutJoined(a: string, b: string, p: char -> bool, c: char)
    requires a != [] && (forall i | 0 <= i < |a| :: p(a[i])) && !p(c)
    ensures Cut(a + ([c] + b), p, c) == Some((a, b))
  {
    var s := a + ([c] + b);
    JoinedAt(a, c, b);
    forall i | 0 <= i < |a| ensures p(s[i]) {
      assert s[i] == s[..|a|][i];
    }
    SpanEnds(s, |a|, p);
  }

  lemma CutSplits(s: string, p: char -> bool, c: char)
    requires Cut(s, p, c).Some?
    ensures var (a, b) := Cut(s, p, c).value;
            a != [] && (forall i | 0 <= i < |a| :: p(a[i])) && s == a + ([c] + b)
  {
    SplitsAt(s, Span(s, p));
  }

  /** The matcher finds exactly the valid splits; in particular there is at most one. */
  lemma FindPartsIff(s: string, p: Parts)
    ensures FindParts(s) == Some(p) <==> ValidParts(p) && s == Join(p)
  {
    if ValidParts(p) && s == Join(p) {
      CutJoined(p.name, p.id + ("-" + p.epoch), IsLower, '_');
      CutJoined(p.id, p.epoch, IsDigit, '-');
    }
    if FindParts(s) == Some(p) {
      CutSplits(s, IsLower, '_');
      CutSplits(Cut(s, IsLower, '_').value.1, IsDigit, '-');
    }
  }

  lemma SplitUnique(p: Parts, q: Parts)
    requires ValidParts(p) && ValidParts(q) && Join(p) == Join(q)
    ensures p == q
  {
    FindPartsIff(Join(p), p);
    FindPartsIff(Join(p), q);
  }

  predicate IsValidChainID(s: string) {
    Len(s) <= 48 && FindParts(s).Some?
  }

  datatype Error = TooLong | InvalidFormat | Overflow
  datatype Result = Ok(id: nat) | Err(error: Error)

  function ParseChainID(s: string): Result {
    var t := TrimSpace(s);
    if Len(t) > 48 then Err(TooLong)
    else
      match FindParts(t)
      case None => Err(InvalidFormat)
      case Some(p) => if AllDigits(p.id) then Ok(DecimalValue(p.id)) else Err(InvalidFormat)
  }

  function Print(name: string, id: nat, epoch: nat): string {
    Join(Parts(name, ToDecimal(id), ToDecimal(epoch)))
  }

  // ----- laws

  lemma {:induction false} AsciiLen(s: string)
    requires forall i | 0 <= i < |s| :: s[i] < '\U{0080}'
    ensures Len(s) == |s|
  {
    if s != [] {
      AsciiLen(s[1..]);
    }
  }

  predicate AllSpace(s: string) {
    forall i | 0 <= i < |s| :: IsSpace(s[i])
  }

  lemma {:induction false} TrimLeftPadded(pad: string, t: string)
    requires AllSpace(pad) && t != [] && !IsSpace(t[0])
    ensures TrimLeft(pad + t) == t
  {
    if pad == [] {
      assert pad + t == t;
    } else {
      assert (pad + t)[1..] == pad[1..] + t;
      TrimLeftPadded(pad[1..], t);
    }
  }

  lemma {:induction false} TrimRightPadded(t: string, pad: string)
    requires AllSpace(pad) && t != [] && !IsSpace(t[|t| - 1])
    ensures TrimRight(t + pad) == t
  {
    if pad == [] {
      assert t + pad == t;
    } else {
      assert (t + pad)[..|t + pad| - 1] == t + pad[..|pad| - 1];
      TrimRightPadded(t, pad[..|pad| - 1]);
    }
  }

  lemma {:induction false} TrimLeftSplit(s: string) returns (pad: string)
    ensures AllSpace(pad) && s == pad + TrimLeft(s)
  {
    if s != [] && IsSpace(s[0]) {
      var rest := TrimLeftSplit(s[1..]);
      pad := [s[0]] + rest;
    } else {
      pad := [];
    }
  }

  lemma {:induction false} TrimRightSplit(s: string) returns (pad: string)
    ensures AllSpace(pad) && s == TrimRight(s) + pad
  {
    if s != [] && IsSpace(s[|s| - 1]) {
      var rest := TrimRightSplit(s[..|s| - 1]);
      pad := rest + [s[|s| - 1]];
    } else {
      pad := [];
    }
  }

  lemma TrimPadded(before: string, t: string, after: string)
    requires AllSpace(before) && AllSpace(after) && t != [] && !IsSpace(t[0]) && !IsSpace(t[|t| - 1])
    ensures TrimSpace(before + (t + after)) == t
  {
    assert (t + after)[0] == t[0];
    TrimLeftPadded(before, t + after);
    TrimRightPadded(t, after);
  }

  lemma JoinEnds(p: Parts)
    requires ValidParts(p)
    ensures var s := Join(p); s != [] && !IsSpace(s[0]) && !IsSpace(s[|s| - 1])
  {
    var s := Join(p);
    assert s[0] == p.name[0];
    assert s[|s| - 1] == p.epoch[|p.epoch| - 1];
  }

  lemma JoinIsAscii(p: Parts)
    requires ValidParts(p)
    ensures Len(Join(p)) == |Join(p)|
  {
    var s := Join(p);
    forall i | 0 <= i < |s| ensures s[i] < '\U{0080}' {
      var a, b := |p.name|, |p.name| + 1 + |p.id|;
      if i < a {
        assert s[i] == p.name[i];
      } else if a < i < b {
        assert s[i] == p.id[i - a - 1];
      } else if b < i {
        assert s[i] == p.epoch[i - b - 1];
      }
    }
    AsciiLen(s);
  }

  /** Parsing gives the id of the parts of the trimmed text. */
  lemma ParseTrimmed(s: string, p: Parts)
    requires ValidParts(p) && TrimSpace(s) == Join(p) && Len(Join(p)) <= 48
    ensures ParseChainID(s) == Ok(DecimalValue(p.id))
  {
    FindPartsIff(Join(p), p);
  }

  lemma PrintedParts(name: string, id: nat, epoch: nat) returns (p: Parts)
    requires IsName(name) && id >= 1 && epoch >= 1
    ensures p == Parts(name, ToDecimal(id), ToDecimal(epoch)) && ValidParts(p) && Join(p) == Print(name, id, epoch)
    ensures DecimalValue(p.id) == id && DecimalValue(p.epoch) == epoch
  {
    DecimalRoundTrip(id);
    DecimalRoundTrip(epoch);
    p := Parts(name, ToDecimal(id), ToDecimal(epoch));
  }

  /** Parsing undoes printing. */
  lemma ParsePrinted(name: string, id: nat, epoch: nat)
    requires IsName(name) && id >= 1 && epoch >= 1 && |Print(name, id, epoch)| <= 48
    ensures ParseChainID(Print(name, id, epoch)) == Ok(id)
  {
    var p := PrintedParts(name, id, epoch);
    var t := Join(p);
    JoinEnds(p);
    JoinIsAscii(p);
    TrimPadded("", t, "");
    assert "" + (t + "") == t;
    ParseTrimmed(t, p);
  }

  /** Whatever parses is, up to surrounding space, the printed form of the id with one name and one epoch. */
  lemma ParsedWasPrinted(s: string) returns (name: string, epoch: nat)
    requires ParseChainID(s).Ok?
    ensures IsName(name) && epoch >= 1 && ParseChainID(s).id >= 1
    ensures TrimSpace(s) == Print(name, ParseChainID(s).id, epoch)
  {
    var p := FindParts(TrimSpace(s)).value;
    FindPartsIff(TrimSpace(s), p);
    NumeralRoundTrip(p.id);
    NumeralRoundTrip(p.epoch);
    NumeralPositive(p.id);
    NumeralPositive(p.epoch);
    name, epoch := p.name, DecimalValue(p.epoch);
  }

  /** The text s is an identifier with this id inside white space. */
  ghost predicate Denotes(s: string, id: nat, before: string, name: string, epoch: nat, after: string) {
    && AllSpace(before) && AllSpace(after) && IsName(name) && id >= 1 && epoch >= 1
    && Len(Print(name, id, epoch)) <= 48
    && s == before + (Print(name, id, epoch) + after)
  }

  /** What ParseChainID accepts, and with which result. */
  lemma ParseIff(s: string, id: nat)
    ensures ParseChainID(s) == Ok(id)
       <==> exists before, name, epoch: nat, after :: Denotes(s, id, before, name, epoch, after)
  {
    if ParseChainID(s) == Ok(id) {
      var name, epoch := ParsedWasPrinted(s);
      var before := TrimLeftSplit(s);
      var after := TrimRightSplit(TrimLeft(s));
      assert Denotes(s, id, before, name, epoch, after);
    }
    if before, name, epoch: nat, after :| Denotes(s, id, before, name, epoch, after) {
      ParsePadded(before, name, id, epoch, after);
    }
  }

  lemma ParsePadded(before: string, name: string, id: nat, epoch: nat, after: string)
    requires Denotes(before + (Print(name, id, epoch) + after), id, before, name, epoch, after)
    ensures ParseChainID(before + (Print(name, id, epoch) + after)) == Ok(id)
  {
    var p := PrintedParts(name, id, epoch);
    JoinEnds(p);
    TrimPadded(before, Join(p), after);
    ParseTrimmed(before + (Join(p) + after), p);
  }

  /** Printing is injective in all three parts. */
  lemma PrintInjective(name: string, id: nat, epoch: nat, name': string, id': nat, epoch': nat)
    requires IsName(name) && IsName(name') && id >= 1 && id' >= 1 && epoch >= 1 && epoch' >= 1
    requires Print(name, id, epoch) == Print(name', id', epoch')
    ensures name == name' && id == id' && epoch == epoch'
  {
    var p := PrintedParts(name, id, epoch);
    var q := PrintedParts(name', id', epoch');
    SplitUnique(p, q);
  }

  lemma FindsIff(s: string)
    ensures FindParts(s).Some? <==> exists p :: ValidParts(p) && s == Join(p)
  {
    if FindParts(s).Some? {
      FindPartsIff(s, FindParts(s).value);
    }
    if p :| ValidParts(p) && s == Join(p) {
      FindPartsIff(s, p);
    }
  }

  /** Parsing succeeds exactly when the trimmed text is a valid identifier, and validity is the grammar within 48 bytes. */
  lemma ParseIffValid(s: string)
    ensures ParseChainID(s).Ok? <==> IsValidChainID(TrimSpace(s))
    ensures IsValidChainID(s) <==> Len(s) <= 48 && exists p :: ValidParts(p) && s == Join(p)
  {
    FindsIff(s);
    if FindParts(TrimSpace(s)).Some? {
      FindPartsIff(TrimSpace(s), FindParts(TrimSpace(s)).value);
    }
  }

  // ----- the --network-id flag

  /** A flag set that does not know the flag, or the flag's text. */
  datatype Flag = Unregistered | Registered(text: string)

  const MAX_UINT64: int := 0xffff_ffff_ffff_ffff

  /** defaultId is the EVM library's default chain id, a constant outside the repository. */
  function ResolveEVMChainID(flag: Flag, defaultId: nat): Result {
    if flag.Unregistered? || flag.text == "" then Ok(defaultId)
    else
      match ParseChainID(flag.text)
      case Err(e) => Err(e)
      case Ok(id) => if id > MAX_UINT64 then Err(Overflow) else Ok(id)
  }

  /** The text t is an identifier with this id. */
  ghost predicate Identifies(t: string, id: nat) {
    Len(t) <= 48 && id >= 1 && exists name, epoch: nat :: IsName(name) && epoch >= 1 && t == Print(name, id, epoch)
  }

  lemma ParseTrimIff(s: string, id: nat)
    ensures ParseChainID(s) == Ok(id) <==> Identifies(TrimSpace(s), id)
  {
    if ParseChainID(s) == Ok(id) {
      var name, epoch := ParsedWasPrinted(s);
    }
    if Identifies(TrimSpace(s), id) {
      var name, epoch: nat :| IsName(name) && epoch >= 1 && TrimSpace(s) == Print(name, id, epoch);
      var p := PrintedParts(name, id, epoch);
      ParseTrimmed(s, p);
    }
  }

  /** No flag, or an empty one, asks for the default. */
  predicate AsksDefault(flag: Flag) {
    flag == Unregistered || flag == Registered("")
  }

  /**
    A flag gives id exactly when it asks for the default and id is the default, or its trimmed
    text is a valid identifier printed with that id and id fits a uint64.
   */
  lemma ResolveIff(flag: Flag, defaultId: nat, id: nat)
    ensures ResolveEVMChainID(flag, defaultId) == Ok(id)
       <==> (AsksDefault(flag) && id == defaultId)
            || (!AsksDefault(flag) && id < 0x1_0000_0000_0000_0000 && Identifies(TrimSpace(flag.text), id))
  {
    if !AsksDefault(flag) {
      ParseTrimIff(flag.text, id);
    }
  }

  /** An identifier is refused for its length, then for its form; a flag also for an id that does not fit. */
  lemma Refusals(s: string, defaultId: nat, e: Error)
    ensures ParseChainID(s) == Err(e)
       <==> (Len(TrimSpace(s)) > 48 && e == TooLong)
            || (Len(TrimSpace(s)) <= 48 && e == InvalidFormat && !exists p :: ValidParts(p) && TrimSpace(s) == Join(p))
    ensures s != "" ==>
              (ResolveEVMChainID(Registered(s), defaultId) == Err(e)
               <==> ParseChainID(s) == Err(e)
                    || (e == Overflow && ParseChainID(s).Ok? && ParseChainID(s).id >= 0x1_0000_0000_0000_0000))
  {
    FindsIff(TrimSpace(s));
    if FindParts(TrimSpace(s)).Some? {
      FindPartsIff(TrimSpace(s), FindParts(TrimSpace(s)).value);
    }
  }

  /** The 25 white space characters of Unicode. */
  lemma SpacesAre(c: char)
    ensures IsSpace(c) <==>
              c in "\t\n\U{000B}\U{000C}\r \U{0085}\U{00A0}\U{1680}\U{2000}\U{2001}\U{2002}\U{2003}\U{2004}\U{2005}"
                   + "\U{2006}\U{2007}\U{2008}\U{2009}\U{200A}\U{2028}\U{2029}\U{202F}\U{205F}\U{3000}"
  {
  }

  /** Lengths in UTF-8 at the borders between one, two, three and four bytes. */
  lemma LengthSamples()
    ensures Len("\U{007F}") == 1 && Len("\U{0080}") == Len("\U{07FF}") == 2
    ensures Len("\U{0800}") == Len("\U{FFFF}") == 3 && Len("\U{10000}") == Len("\U{10FFFF}") == 4
  {
  }

  /** An identifier of the chain, printed. */
  lemma PrintSample()
    ensures Print("mono", 6940, 1) == "mono_6940-1"
  {
    NextDigit(6, "6", '9', 69);
    NextDigit(69, "69", '4', 694);
    NextDigit(694, "694", '0', 6940);
  }
}
