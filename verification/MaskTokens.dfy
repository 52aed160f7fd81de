/**
 Mask tokens such as "[PHONE_3]": how they are printed, and the scanner that finds them in a text.
*/
module MaskTokens {
  import opened Options
  import Decimal

  datatype EntityType =
    | Person | PersonName | Phone | Email | UrlQuery | Address | DateOfBirth | NationalId | ForeignerRegistration
    | BusinessRegistration | CorporateRegistration | AccountNumber | CardNumber | PostalCode | IpAddress
    | Passport | DriverLicense

  function Prefix(t: EntityType): string {
    match t
    case Person => "PERSON"
    case PersonName => "NAME"
    case Phone => "PHONE"
    case Email => "EMAIL"
    case UrlQuery => "QUERY"
    case Address => "ADDRESS"
    case DateOfBirth => "BIRTH"
    case NationalId => "RRN"
    case ForeignerRegistration => "FR_NO"
    case BusinessRegistration => "BIZ_NO"
    case CorporateRegistration => "CORP_NO"
    case AccountNumber => "ACCOUNT"
    case CardNumber => "CARD_NO"
    case PostalCode => "POSTAL_CODE"
    case IpAddress => "IP"
    case Passport => "PASSPORT"
    case DriverLicense => "LICENSE_NO"
  }

  /** The inverse dictionary. */
  function TypeOf(prefix: string): Option<EntityType> {
    if t: EntityType :| Prefix(t) == prefix then Some(t) else None
  }

  lemma PrefixesDiffer(a: EntityType, b: EntityType)
    requires Prefix(a) == Prefix(b)
    ensures a == b
  {
  }

  // ---------- the scanner ----------

  predicate IsUpper(c: char) { 'A' <= c <= 'Z' || c == '_' }

  /** Length of the leading run of [A-Z_]. */
  function UpperRun(s: string): nat {
    if s != [] && IsUpper(s[0]) then 1 + UpperRun(s[1..]) else 0
  }

  /** Length of the leading run of digits. */
  function DigitRun(s: string): nat {
    if s != [] && Decimal.IsDigit(s[0]) then 1 + DigitRun(s[1..]) else 0
  }

  lemma {:induction false} RunsFit(s: string)
    ensures UpperRun(s) <= |s| && DigitRun(s) <= |s|
    ensures forall i :: 0 <= i < UpperRun(s) ==> IsUpper(s[i])
    ensures forall i :: 0 <= i < DigitRun(s) ==> Decimal.IsDigit(s[i])
    ensures UpperRun(s) < |s| ==> !IsUpper(s[UpperRun(s)])
    ensures DigitRun(s) < |s| ==> !Decimal.IsDigit(s[DigitRun(s)])
  {
    if s != [] { RunsFit(s[1..]); }
  }

  /** Where the digits of a token that starts `s` would begin. */
  function DigitsAt(s: string): nat { if s == [] then 0 else 1 + UpperRun(s[1..]) }

  /** The length of a match whose digits begin at `u` and are `d` many, 0 if that is no match. */
  function Match(s: string, u: nat, d: nat): (n: nat)
    ensures n <= |s|
  {
    if u < 3 || d == 0 || u + d >= |s| || s[u - 1] != '_' || s[u + d] != ']' then 0 else u + d + 1
  }

  /** The length of the match of `\[([A-Z_]+)_(\d+)\]` at the head of `s`, 0 if there is none.  Neither run can
      be cut shorter, so the match needs no backtracking beyond the last underscore. */
  function TokenLen(s: string): (n: nat)
    ensures n <= |s|
  {
    if s == [] || s[0] != '[' then 0 else
    RunsFit(s[1..]);
    var u := DigitsAt(s);
    Match(s, u, DigitRun(s[u..]))
  }

  predicate IsToken(s: string) { s != [] && TokenLen(s) == |s| }

  /** The group before the last underscore. */
  function TokenPrefix(s: string): string
    requires IsToken(s)
  {
    s[1..DigitsAt(s) - 1]
  }

  function TokenOrdinal(s: string): nat
    requires IsToken(s)
  {
    RunsFit(s[DigitsAt(s)..]);
    Decimal.Parse(s[DigitsAt(s)..|s| - 1])
  }

  function TokenText(prefix: string, ordinal: nat): string {
    "[" + prefix + "_" + Decimal.Print(ordinal) + "]"
  }

  function Token(t: EntityType, ordinal: nat): string { TokenText(Prefix(t), ordinal) }

  // ---------- runs and concatenation ----------

  predicate StopsRuns(rest: string) { rest == [] || (!IsUpper(rest[0]) && !Decimal.IsDigit(rest[0])) }

  /** A run is not affected by what follows once it has ended, nor by a character that stops it. */
  lemma {:induction false} RunsExtend(s: string, rest: string)
    ensures UpperRun(s) < |s| || StopsRuns(rest) ==> UpperRun(s + rest) == UpperRun(s)
    ensures DigitRun(s) < |s| || StopsRuns(rest) ==> DigitRun(s + rest) == DigitRun(s)
  {
    if s == [] {
      assert s + rest == rest;
    } else {
      assert (s + rest)[1..] == s[1..] + rest;
      RunsExtend(s[1..], rest);
    }
  }

  lemma {:induction false} WholeRuns(a: string, rest: string)
    ensures (forall i :: 0 <= i < |a| ==> IsUpper(a[i])) && (rest == [] || !IsUpper(rest[0])) ==>
      UpperRun(a + rest) == |a|
    ensures Decimal.AllDigits(a) && (rest == [] || !Decimal.IsDigit(rest[0])) ==> DigitRun(a + rest) == |a|
  {
    if a == [] {
      assert a + rest == rest;
    } else {
      assert (a + rest)[1..] == a[1..] + rest;
      WholeRuns(a[1..], rest);
    }
  }

  lemma DropConcat(a: string, b: string, n: nat)
    requires n <= |a|
    ensures (a + b)[n..] == a[n..] + b
  {
  }

  /** A match is a match whatever follows it. */
  lemma TokenExtends(s: string, rest: string)
    requires TokenLen(s) > 0
    ensures TokenLen(s + rest) == TokenLen(s)
  {
    var u := DigitsAt(s);
    RunsFit(s[1..]);
    RunsFit(s[u..]);
    DropConcat(s, rest, 1);
    RunsExtend(s[1..], rest);
    DropConcat(s, rest, u);
    RunsExtend(s[u..], rest);
  }

  lemma {:induction false} RunsCut(s: string, m: nat)
    requires m <= |s|
    ensures UpperRun(s) <= m ==> UpperRun(s[..m]) == UpperRun(s)
    ensures DigitRun(s) <= m ==> DigitRun(s[..m]) == DigitRun(s)
  {
    if m > 0 {
      assert s[..m][1..] == s[1..][..m - 1];
      RunsCut(s[1..], m - 1);
    }
  }

  lemma MatchCut(s: string, u: nat, d: nat)
    requires Match(s, u, d) > 0
    ensures Match(s[..Match(s, u, d)], u, d) == Match(s, u, d)
  {
  }

  /** A match depends on its own characters only. */
  lemma TokenAlone(s: string)
    requires TokenLen(s) > 0
    ensures IsToken(s[..TokenLen(s)])
  {
    var n, u := TokenLen(s), DigitsAt(s);
    RunsFit(s[1..]);
    RunsCut(s[1..], n - 1);
    RunsCut(s[u..], n - u);
    MatchCut(s, u, DigitRun(s[u..]));
    assert s[..n][1..] == s[1..][..n - 1] && s[..n][u..] == s[u..][..n - u];
  }

  lemma MatchStops(gap: string, rest: string, u: nat, d: nat)
    requires u + d <= |gap| && (rest == [] || rest[0] == '[')
    ensures Match(gap + rest, u, d) == Match(gap, u, d)
  {
    if rest != [] { assert (gap + rest)[|gap|] == rest[0]; }
  }

  /** No match crosses into text that begins with a bracket or ends there. */
  lemma TokenStopsBefore(gap: string, rest: string)
    requires gap != [] && (rest == [] || rest[0] == '[')
    ensures TokenLen(gap + rest) == TokenLen(gap)
  {
    if gap[0] == '[' {
      DropConcat(gap, rest, 1);
      RunsExtend(gap[1..], rest);
      RunsFit(gap[1..]);
      var u := DigitsAt(gap);
      assert DigitsAt(gap + rest) == u;
      DropConcat(gap, rest, u);
      RunsExtend(gap[u..], rest);
      RunsFit(gap[u..]);
      MatchStops(gap, rest, u, DigitRun(gap[u..]));
    }
  }

  /** The only opening bracket of a match is its first character. */
  lemma NoBracketInside(s: string, i: nat)
    requires 0 < i < TokenLen(s)
    ensures s[i] != '['
  {
    var u := DigitsAt(s);
    RunsFit(s[1..]);
    RunsFit(s[u..]);
    if i < u {
      assert s[i] == s[1..][i - 1];
    } else if i < TokenLen(s) - 1 {
      assert s[i] == s[u..][i - u];
    }
  }

  /** A match has no carriage return. */
  lemma TokenCharacter(s: string, i: nat)
    requires 0 < i < TokenLen(s)
    ensures s[i] != '\r'
  {
    var u := DigitsAt(s);
    RunsFit(s[1..]);
    RunsFit(s[u..]);
    if i < u {
      assert s[i] == s[1..][i - 1];
    } else if i < TokenLen(s) - 1 {
      assert s[i] == s[u..][i - u];
    }
  }

  // ---------- printing and reading ----------

  lemma PrefixIsUpper(t: EntityType)
    ensures Prefix(t) != [] && forall i :: 0 <= i < |Prefix(t)| ==> IsUpper(Prefix(t)[i])
  {
  }

  lemma TokenShape(prefix: string, digits: string)
    ensures var s, n := "[" + prefix + "_" + digits + "]", |prefix| + 2;
      && |s| == n + |digits| + 1 && s[0] == '[' && s[n - 1] == '_' && s[|s| - 1] == ']'
      && s[1..] == (prefix + "_") + (digits + "]") && s[n..] == digits + "]"
      && s[1..n - 1] == prefix && s[n..|s| - 1] == digits
  {
  }

  lemma PrintedRuns(prefix: string, ordinal: nat)
    requires forall i :: 0 <= i < |prefix| ==> IsUpper(prefix[i])
    ensures var s, n := TokenText(prefix, ordinal), |prefix| + 2;
      |s| == n + |Decimal.Print(ordinal)| + 1 && DigitsAt(s) == n && DigitRun(s[n..]) == |Decimal.Print(ordinal)|
  {
    var digits := Decimal.Print(ordinal);
    TokenShape(prefix, digits);
    WholeRuns(prefix + "_", digits + "]");
    WholeRuns(digits, "]");
  }

  lemma ShapedToken(s: string, n: nat)
    requires 3 <= n < |s| - 1 && s[0] == '[' && s[n - 1] == '_' && s[|s| - 1] == ']'
    requires DigitsAt(s) == n && DigitRun(s[n..]) == |s| - 1 - n
    ensures IsToken(s)
  {
  }

  lemma PrintedToken(prefix: string, ordinal: nat)
    requires prefix != [] && forall i :: 0 <= i < |prefix| ==> IsUpper(prefix[i])
    ensures var s := TokenText(prefix, ordinal); IsToken(s) && TokenPrefix(s) == prefix && TokenOrdinal(s) == ordinal
  {
    TokenShape(prefix, Decimal.Print(ordinal));
    PrintedRuns(prefix, ordinal);
    Decimal.ParsePrint(ordinal);
    ShapedToken(TokenText(prefix, ordinal), |prefix| + 2);
  }

  lemma TypeOfPrefix(t: EntityType)
    ensures TypeOf(Prefix(t)) == Some(t)
  {
    forall a: EntityType | Prefix(a) == Prefix(t) ensures a == t { PrefixesDiffer(a, t); }
  }

  /** A printed token is one match and reads back as its type and ordinal. */
  lemma TokenRoundTrip(t: EntityType, ordinal: nat)
    ensures var s := Token(t, ordinal);
      IsToken(s) && TypeOf(TokenPrefix(s)) == Some(t) && TokenOrdinal(s) == ordinal
  {
    PrefixIsUpper(t);
    PrintedToken(Prefix(t), ordinal);
    TypeOfPrefix(t);
  }

  // ---------- tokens already in a text ----------

  datatype Found = Found(entityType: EntityType, ordinal: nat, start: nat, end: nat)

  /** The finding at the head of `text[i..]`, if it is a token of a known prefix with a positive ordinal. */
  function FoundAt(text: string, i: nat): (found: Option<Found>)
    requires i <= |text|
    ensures found.Some? ==>
      found.value.start == i && found.value.end == i + TokenLen(text[i..]) <= |text| && i < found.value.end
  {
    var n := TokenLen(text[i..]);
    if n == 0 then None else
    TokenAlone(text[i..]);
    var token := text[i..][..n];
    match TypeOf(TokenPrefix(token))
    case None => None
    case Some(t) => if TokenOrdinal(token) == 0 then None else Some(Found(t, TokenOrdinal(token), i, i + n))
  }

  lemma PrintedTokenIsFound(text: string, p: nat, t: EntityType, ordinal: nat) returns (f: Found)
    requires p < |text| && TokenLen(text[p..]) > 0 && ordinal > 0
    requires text[p..][..TokenLen(text[p..])] == Token(t, ordinal)
    ensures f.entityType == t && f.ordinal == ordinal && f.start == p && FoundAt(text, p) == Some(f)
  {
    TokenRoundTrip(t, ordinal);
    f := FoundAt(text, p).value;
  }

  /** Matching resumes after a match, otherwise at the next character. */
  function Next(text: string, i: nat): (j: nat)
    requires i < |text|
    ensures i < j <= |text|
  {
    var n := TokenLen(text[i..]);
    if n == 0 then i + 1 else i + n
  }

  function Listed(found: Option<Found>): seq<Found> { if found.Some? then [found.value] else [] }

  function Scan(text: string, i: nat): seq<Found>
    requires i <= |text|
    decreases |text| - i
  {
    if i == |text| then [] else Listed(FoundAt(text, i)) + Scan(text, Next(text, i))
  }

  /** The scan returns exactly the positions where a known token starts, skipping none. */
  lemma {:induction false} ScanFindsAll(text: string, i: nat)
    requires i <= |text|
    ensures forall f :: f in Scan(text, i) <==> i <= f.start < |text| && FoundAt(text, f.start) == Some(f)
    decreases |text| - i
  {
    if i < |text| {
      ScanFindsAll(text, Next(text, i));
      forall f: Found
        ensures f in Scan(text, i) <==> i <= f.start < |text| && FoundAt(text, f.start) == Some(f)
      {
        assert f in Scan(text, i) <==> f in Listed(FoundAt(text, i)) || f in Scan(text, Next(text, i));
        if i < f.start < Next(text, i) && f.start < |text| { NothingInside(text, i, f.start); }
      }
    }
  }

  lemma NothingInside(text: string, i: nat, p: nat)
    requires i < |text| && i < p < Next(text, i) && p < |text|
    ensures TokenLen(text[p..]) == 0 && FoundAt(text, p) == None
  {
    NoBracketInside(text[i..], p - i);
    assert text[i..][p - i] == text[p] == text[p..][0];
  }

  lemma ScanTurn(text: string, i: nat, tokens: seq<Found>)
    requires i < |text|
    ensures tokens + Scan(text, i) == (tokens + Listed(FoundAt(text, i))) + Scan(text, Next(text, i))
  {
  }

  lemma ScanEnd(text: string, tokens: seq<Found>)
    ensures tokens + Scan(text, |text|) == tokens
  {
  }

  // ---------- the digit limit ----------

  /** `int` and the f-strings refuse decimal numbers of more digits. */
  const MAX_INT_DIGITS := 4300

  predicate Printable(n: nat) { |Decimal.Print(n)| <= MAX_INT_DIGITS }

  /** A token of a known type whose ordinal `int` refuses to read. */
  predicate TooLong(token: string) {
    && IsToken(token) && TypeOf(TokenPrefix(token)).Some?
    && |token| - 1 - DigitsAt(token) > MAX_INT_DIGITS
  }

  /** A match at `p`, if there is one, can be read. */
  predicate ReadableAt(text: string, p: nat) {
    p <= |text| ==> var s := text[p..]; TokenLen(s) > 0 ==> !TooLong(s[..TokenLen(s)])
  }

  /** No match anywhere in the text is too long to be read. */
  ghost predicate Readable(text: string) { forall p :: ReadableAt(text, p) }

  lemma PrintableIsNotTooLong(t: EntityType, ordinal: nat)
    ensures IsToken(Token(t, ordinal)) && (TooLong(Token(t, ordinal)) <==> !Printable(ordinal))
  {
    TokenRoundTrip(t, ordinal);
    PrefixIsUpper(t);
    PrintedRuns(Prefix(t), ordinal);
  }

  lemma ReadableTurn(text: string, i: nat)
    requires i < |text| && ReadableAt(text, i)
    ensures forall p: nat :: i <= p < Next(text, i) ==> ReadableAt(text, p)
  {
    forall p: nat | i < p < Next(text, i) ensures ReadableAt(text, p) { NothingInside(text, i, p); }
  }

  /** The tokens of the text, or None for the error of `int` on the first ordinal that is too long. */
  method FindPreexistingMaskTokens(text: string) returns (tokens: Option<seq<Found>>)
    ensures tokens.None? <==> !Readable(text)
    ensures tokens.Some? ==> tokens.value == Scan(text, 0)
    ensures tokens.Some? ==> forall f :: f in tokens.value <==> f.start < |text| && FoundAt(text, f.start) == Some(f)
  {
    var found: seq<Found> := [];
    var i := 0;
    while i < |text|
      invariant i <= |text| && found + Scan(text, i) == Scan(text, 0)
      invariant forall p: nat :: p < i ==> ReadableAt(text, p)
    {
      if !ReadableAt(text, i) {
        return None;
      }
      ReadableTurn(text, i);
      ScanTurn(text, i, found);
      found := found + Listed(FoundAt(text, i));
      i := Next(text, i);
    }
    assert forall p :: ReadableAt(text, p);
    ScanEnd(text, found);
    ScanFindsAll(text, 0);
    tokens := Some(found);
  }

  /** What can be printed: exactly the numbers of at most 4300 digits. */
  lemma PrintableIff(n: nat)
    ensures Printable(n) <==> n < Decimal.PowerOfTen(4300)
  {
    Decimal.DigitsIff(n, 4300);
  }

  // ---------- what a match is ----------

  /** The first `n` characters are a bracket, capital letters and underscores up to `k`, an underscore at `k`, digits,
      and a closing bracket. */
  predicate MatchesAt(s: string, k: nat, n: nat) {
    && 2 <= k && k + 2 < n <= |s| && s[0] == '[' && s[k] == '_' && s[n - 1] == ']'
    && (forall i :: 1 <= i < k ==> 'A' <= s[i] <= 'Z' || s[i] == '_')
    && (forall i :: k < i < n - 1 ==> Decimal.IsDigit(s[i]))
  }

  lemma {:induction false} UpperRunIs(s: string, n: nat)
    requires n <= |s| && (forall i :: 0 <= i < n ==> 'A' <= s[i] <= 'Z' || s[i] == '_')
    requires n < |s| ==> !('A' <= s[n] <= 'Z') && s[n] != '_'
    ensures UpperRun(s) == n
  {
    if n > 0 { UpperRunIs(s[1..], n - 1); }
  }

  lemma {:induction false} DigitRunIs(s: string, n: nat)
    requires n <= |s| && (forall i :: 0 <= i < n ==> Decimal.IsDigit(s[i])) && (n < |s| ==> !Decimal.IsDigit(s[n]))
    ensures DigitRun(s) == n
  {
    if n > 0 { DigitRunIs(s[1..], n - 1); }
  }

  /** The scanner finds exactly the matches of the token pattern, and a match can be read in one way only. */
  lemma TokenLenIff(s: string, k: nat, n: nat)
    ensures MatchesAt(s, k, n) <==> TokenLen(s) == n && n > 0 && k == DigitsAt(s) - 1
  {
    if MatchesAt(s, k, n) { MatchIsFound(s, k, n); }
    if TokenLen(s) == n && n > 0 && k == DigitsAt(s) - 1 { FoundMatches(s, k, n); }
  }

  lemma MatchIsFound(s: string, k: nat, n: nat)
    requires MatchesAt(s, k, n)
    ensures TokenLen(s) == n && k == DigitsAt(s) - 1
  {
    assert s[1..][k] == s[k + 1];
    UpperRunIs(s[1..], k);
    assert s[k + 1..][n - k - 2] == ']';
    DigitRunIs(s[k + 1..], n - k - 2);
  }

  lemma FoundMatches(s: string, k: nat, n: nat)
    requires TokenLen(s) == n && n > 0 && k == DigitsAt(s) - 1
    ensures MatchesAt(s, k, n)
  {
    RunsFit(s[1..]);
    RunsFit(s[k + 1..]);
    forall i | 1 <= i < k ensures 'A' <= s[i] <= 'Z' || s[i] == '_' { assert s[i] == s[1..][i - 1]; }
    forall i | k < i < n - 1 ensures Decimal.IsDigit(s[i]) { assert s[i] == s[k + 1..][i - k - 1]; }
  }

  /** The dictionary of prefixes. */
  lemma PrefixesAre()
    ensures Prefix(Person) == "PERSON" && Prefix(PersonName) == "NAME" && Prefix(Phone) == "PHONE"
    ensures Prefix(Email) == "EMAIL" && Prefix(UrlQuery) == "QUERY" && Prefix(Address) == "ADDRESS"
    ensures Prefix(DateOfBirth) == "BIRTH" && Prefix(NationalId) == "RRN" && Prefix(ForeignerRegistration) == "FR_NO"
    ensures Prefix(BusinessRegistration) == "BIZ_NO" && Prefix(CorporateRegistration) == "CORP_NO"
    ensures Prefix(AccountNumber) == "ACCOUNT" && Prefix(CardNumber) == "CARD_NO" && Prefix(IpAddress) == "IP"
    ensures Prefix(PostalCode) == "POSTAL_CODE" && Prefix(Passport) == "PASSPORT"
    ensures Prefix(DriverLicense) == "LICENSE_NO"
  {
  }
}
