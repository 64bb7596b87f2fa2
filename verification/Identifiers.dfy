/**
 * Public identifiers (src/identifier.rs and the public-route parser of
 * src/routes/account.rs).
 *
 * Rust's Unicode tables and the `phonenumber` crate are functions held by
 * `Env`. `Lawful` lists the facts about them the results use; it is met by a
 * plain ASCII table, so it is not vacuous.
 */
module Identifiers {
  import opened Text
  import opened AccountStore
  import SM = SignedMessages

  /**
   * `lower(s, i)` is what `s.to_lowercase()` puts for the character at `i`,
   * which may be several characters and may depend on its neighbours.
   * `phone` is parse, country, validity and E.164 formatting in one.
   */
  datatype Env = Env(isSpace: char -> bool, lower: (string, int) -> string, phone: string -> Option<string>)

  predicate IsAscii(c: char) {
    c as int < 128
  }

  function AsciiLower(c: char): char {
    if 'A' <= c <= 'Z' then (c as int + 32) as char else c
  }

  predicate IsWordChar(c: char) {
    'a' <= c <= 'z' || 'A' <= c <= 'Z' || IsDigit(c) || c == '_' || c == '+'
  }

  predicate IsE164(s: string) {
    |s| >= 2 && s[0] == '+' && forall i :: 1 <= i < |s| ==> IsDigit(s[i])
  }

  ghost predicate LawfulLower(e: Env, s: string, i: int)
    requires 0 <= i < |s|
  {
    if IsAscii(s[i]) then e.lower(s, i) == [AsciiLower(s[i])]
    else
      && |e.lower(s, i)| > 0
      && forall j :: 0 <= j < |e.lower(s, i)| ==>
           var c := e.lower(s, i)[j];
           c != '+' && !IsDigit(c) && (e.isSpace(c) ==> e.isSpace(s[i]))
  }

  ghost predicate Lawful(e: Env) {
    && (forall c :: IsWordChar(c) ==> !e.isSpace(c))
    && (forall s: string, i: int :: 0 <= i < |s| ==> LawfulLower(e, s, i))
    && (forall s: string :: Lower(e, Lower(e, s)) == Lower(e, s))
    && (forall s: string :: e.phone(s).Some? ==> IsE164(e.phone(s).value) && e.phone(e.phone(s).value) == e.phone(s))
  }

  // ----- str methods -----

  function LowerFrom(e: Env, s: string, i: nat): string
    requires i <= |s|
    decreases |s| - i
  {
    if i == |s| then "" else e.lower(s, i) + LowerFrom(e, s, i + 1)
  }

  function Lower(e: Env, s: string): string {
    LowerFrom(e, s, 0)
  }

  function TrimStart(e: Env, s: string): string {
    if s != "" && e.isSpace(s[0]) then TrimStart(e, s[1..]) else s
  }

  function TrimEnd(e: Env, s: string): string {
    if s != "" && e.isSpace(s[|s| - 1]) then TrimEnd(e, s[..|s| - 1]) else s
  }

  function Trim(e: Env, s: string): string {
    TrimEnd(e, TrimStart(e, s))
  }

  predicate StartsWith(s: string, prefix: string) {
    |prefix| <= |s| && s[..|prefix|] == prefix
  }

  function AsciiLowerAll(s: string): string {
    seq(|s|, i requires 0 <= i < |s| => AsciiLower(s[i]))
  }

  // ----- parsing -----

  datatype IdentifierError = EmptyIdentifier | InvalidUsername | InvalidPhoneNumber | InvalidModifier
  datatype Result<T> = Ok(value: T) | Err(error: IdentifierError)

  predicate HasLetter(s: string) {
    exists i :: 0 <= i < |s| && 'a' <= s[i] <= 'z'
  }

  predicate Reserved(s: string) {
    StartsWith(s, "1") || StartsWith(s, "3") || StartsWith(s, "_") || StartsWith(s, "bc1") || StartsWith(s, "lnbc1")
  }

  /** Blink's username pattern, on the lowercased text. */
  predicate UsernamePattern(s: string) {
    SM.LegalUsername(s) && !Reserved(s) && HasLetter(s)
  }

  /** matches_blink_username_regex on the lowercased text, with its character loop. */
  method MatchesUsername(lower: string) returns (ok: bool)
    ensures ok <==> UsernamePattern(lower)
  {
    if !(3 <= |lower| <= 50) || Reserved(lower) { return false; }
    var hasLetter := false;
    for i := 0 to |lower|
      invariant forall j :: 0 <= j < i ==> SM.IsUsernameChar(lower[j])
      invariant hasLetter <==> HasLetter(lower[..i])
    {
      var ch := lower[i];
      if 'a' <= ch <= 'z' {
        hasLetter := true;
        assert lower[..i + 1][i] == ch;
      } else if !IsDigit(ch) && ch != '_' {
        return false;
      }
      assert forall j :: 0 <= j < i ==> lower[..i + 1][j] == lower[..i][j];
    }
    assert lower[..|lower|] == lower;
    return hasLetter;
  }

  function CheckedUsername(e: Env, value: string): Result<string> {
    var t := Trim(e, value);
    if t == "" || !UsernamePattern(Lower(e, t)) then Err(InvalidUsername) else Ok(Lower(e, t))
  }

  function CheckedPhone(e: Env, value: string): Result<string> {
    var t := Trim(e, value);
    if t == "" then Err(InvalidPhoneNumber)
    else
      var normalized := if t[0] == '+' then t else if StartsWith(t, "00") then "+" + t[2..] else "+" + t;
      match e.phone(normalized) {
        case None => Err(InvalidPhoneNumber)
        case Some(p) => Ok(p)
      }
  }

  predicate IsPhoneLike(s: string) {
    StartsWith(s, "+") || StartsWith(s, "00") || forall i :: 0 <= i < |s| ==> IsDigit(s[i])
  }

  /** The first '+' at position `from` or later. */
  function FindPlus(s: string, from: nat): (r: Option<nat>)
    ensures r.Some? ==> from <= r.value < |s| && s[r.value] == '+' && forall j :: from <= j < r.value ==> s[j] != '+'
    ensures r.None? ==> forall j :: from <= j < |s| ==> s[j] != '+'
    decreases |s| - from
  {
    if from >= |s| then None else if s[from] == '+' then Some(from) else FindPlus(s, from + 1)
  }

  datatype Split = Split(base: string, wallet: Option<WalletKind>)

  function SplitModifier(s: string): Result<Split> {
    match FindPlus(s, 1) {
      case None => Ok(Split(s, None))
      case Some(i) =>
        var suffix := AsciiLowerAll(s[i + 1..]);
        if suffix == "btc" then Ok(Split(s[..i], Some(Btc)))
        else if suffix == "usd" then Ok(Split(s[..i], Some(Usd)))
        else Err(InvalidModifier)
    }
  }

  datatype Parsed = Parsed(canonical: string, kind: IdentifierKind, wallet: Option<WalletKind>)

  function ParseBase(e: Env, x: Split): Result<Parsed> {
    if IsPhoneLike(x.base) then
      match CheckedPhone(e, x.base) {
        case Ok(c) => Ok(Parsed(c, Phone, x.wallet))
        case Err(error) => Err(error)
      }
    else
      match CheckedUsername(e, x.base) {
        case Ok(c) => Ok(Parsed(c, Username, x.wallet))
        case Err(error) => Err(error)
      }
  }

  /** parse_public_identifier */
  function Parse(e: Env, value: string): Result<Parsed> {
    var t := Trim(e, value);
    if t == "" then Err(EmptyIdentifier)
    else match SplitModifier(t) {
           case Err(error) => Err(error)
           case Ok(x) => ParseBase(e, x)
         }
  }

  datatype Intent = Intent(canonical: string, wallet: Option<WalletKind>, callback: string)

  function WalletSuffix(w: Option<WalletKind>): string {
    match w {
      case None => ""
      case Some(Btc) => "+btc"
      case Some(Usd) => "+usd"
    }
  }

  predicate IsLegacyCandidate(s: string) {
    !IsPhoneLike(s) && FindPlus(s, 1).None?
  }

  /** parse_public_identifier_for_public_route; `Ok(None)` is an unknown phone number. */
  function RouteParse(e: Env, value: string): Result<Option<Intent>> {
    var t := Trim(e, value);
    if t == "" then Err(EmptyIdentifier)
    else match Parse(e, t) {
           case Ok(p) => Ok(Some(Intent(p.canonical, p.wallet, p.canonical + WalletSuffix(p.wallet))))
           case Err(InvalidUsername) =>
             if IsLegacyCandidate(t) then
               var name := Lower(e, Trim(e, t));
               Ok(Some(Intent(name, None, name)))
             else Err(InvalidUsername)
           case Err(InvalidPhoneNumber) => if IsPhoneLike(t) then Ok(None) else Err(InvalidPhoneNumber)
           case Err(error) => Err(error)
         }
  }

  // ----- trimming -----

  ghost predicate Tight(e: Env, s: string) {
    s == "" || (!e.isSpace(s[0]) && !e.isSpace(s[|s| - 1]))
  }

  lemma TrimTight(e: Env, s: string)
    requires Tight(e, s)
    ensures Trim(e, s) == s
  {
  }

  lemma {:induction false} TrimEndPrefix(e: Env, s: string)
    ensures |TrimEnd(e, s)| <= |s| && TrimEnd(e, s) == s[..|TrimEnd(e, s)|]
    ensures TrimEnd(e, s) == "" || !e.isSpace(TrimEnd(e, s)[|TrimEnd(e, s)| - 1])
  {
    if s != "" && e.isSpace(s[|s| - 1]) {
      TrimEndPrefix(e, s[..|s| - 1]);
    }
  }

  lemma {:induction false} TrimStartHead(e: Env, s: string)
    ensures TrimStart(e, s) == "" || !e.isSpace(TrimStart(e, s)[0])
  {
    if s != "" && e.isSpace(s[0]) { TrimStartHead(e, s[1..]); }
  }

  lemma TrimIsTight(e: Env, s: string)
    ensures Tight(e, Trim(e, s)) && Trim(e, Trim(e, s)) == Trim(e, s)
  {
    TrimStartHead(e, s);
    TrimEndPrefix(e, TrimStart(e, s));
    TrimTight(e, Trim(e, s));
  }

  /** Trimming text that begins with no space cuts at the end only. */
  lemma TrimIsPrefix(e: Env, s: string)
    requires s != "" && !e.isSpace(s[0])
    ensures 0 < |Trim(e, s)| <= |s| && Trim(e, s) == s[..|Trim(e, s)|]
  {
    assert TrimStart(e, s) == s;
    TrimEndPrefix(e, s);
    TrimEndKeeps(e, s);
  }

  lemma {:induction false} TrimEndKeeps(e: Env, s: string)
    requires s != "" && !e.isSpace(s[0])
    ensures TrimEnd(e, s) != ""
  {
    if e.isSpace(s[|s| - 1]) { TrimEndKeeps(e, s[..|s| - 1]); }
  }

  // ----- lowercasing -----

  /** Every character of the lowercased text comes from a position of the original. */
  lemma {:induction false} LowerOrigin(e: Env, s: string, i: nat, k: nat) returns (j: nat)
    requires i <= |s| && k < |LowerFrom(e, s, i)|
    ensures i <= j < |s| && LowerFrom(e, s, i)[k] in e.lower(s, j)
    decreases |s| - i
  {
    var head := e.lower(s, i);
    if k < |head| {
      j := i;
    } else {
      j := LowerOrigin(e, s, i + 1, k - |head|);
    }
  }

  lemma {:induction false} LowerLength(e: Env, s: string, i: nat)
    requires Lawful(e) && i <= |s|
    ensures |LowerFrom(e, s, i)| >= |s| - i
    decreases |s| - i
  {
    if i < |s| {
      assert LawfulLower(e, s, i);
      LowerLength(e, s, i + 1);
    }
  }

  /** The lowercased text of a word in the username alphabet is itself. */
  lemma {:induction false} LowerOfLegal(e: Env, s: string, i: nat)
    requires Lawful(e) && i <= |s| && forall j :: 0 <= j < |s| ==> SM.IsUsernameChar(s[j])
    ensures LowerFrom(e, s, i) == s[i..]
    decreases |s| - i
  {
    if i < |s| {
      assert LawfulLower(e, s, i);
      LowerOfLegal(e, s, i + 1);
      assert s[i..] == [s[i]] + s[i + 1..];
    }
  }

  /** '+' and digits are their own lowercase and nothing else's. */
  lemma LowerSource(e: Env, s: string, i: int, c: char)
    requires Lawful(e) && 0 <= i < |s| && c in e.lower(s, i) && (c == '+' || IsDigit(c))
    ensures s[i] == c
  {
    assert LawfulLower(e, s, i);
  }

  lemma LowerNoPlus(e: Env, s: string)
    requires Lawful(e) && Without(s, '+')
    ensures Without(Lower(e, s), '+')
  {
    forall k | 0 <= k < |Lower(e, s)| ensures Lower(e, s)[k] != '+' {
      var j := LowerOrigin(e, s, 0, k);
      if Lower(e, s)[k] == '+' { LowerSource(e, s, j, '+'); }
    }
  }

  lemma StartsWithOne(s: string, a: char)
    ensures StartsWith(s, [a]) <==> |s| >= 1 && s[0] == a
  {
    if |s| >= 1 { assert s[..1] == [s[0]]; }
  }

  lemma StartsWithTwo(s: string, a: char, b: char)
    ensures StartsWith(s, [a, b]) <==> |s| >= 2 && s[0] == a && s[1] == b
  {
    if |s| >= 2 { assert s[..2] == [s[0], s[1]]; }
  }

  lemma LowerUnfold(e: Env, s: string, i: nat)
    requires Lawful(e) && i < |s|
    ensures LowerFrom(e, s, i) == e.lower(s, i) + LowerFrom(e, s, i + 1) && |e.lower(s, i)| > 0
    ensures forall c :: c in e.lower(s, i) && (c == '+' || IsDigit(c)) ==> s[i] == c && e.lower(s, i) == [c]
  {
    assert LawfulLower(e, s, i);
  }

  lemma LowerStartsPlus(e: Env, s: string)
    requires Lawful(e) && s != ""
    ensures StartsWith(Lower(e, s), "+") ==> StartsWith(s, "+")
  {
    LowerUnfold(e, s, 0);
    StartsWithOne(s, '+');
    StartsWithOne(Lower(e, s), '+');
    assert Lower(e, s)[0] == e.lower(s, 0)[0];
  }

  lemma LowerStartsZeros(e: Env, s: string)
    requires Lawful(e) && s != ""
    ensures StartsWith(Lower(e, s), "00") ==> StartsWith(s, "00")
  {
    LowerUnfold(e, s, 0);
    StartsWithTwo(s, '0', '0');
    StartsWithTwo(Lower(e, s), '0', '0');
    assert Lower(e, s)[0] == e.lower(s, 0)[0];
    if |s| >= 2 {
      LowerUnfold(e, s, 1);
      assert LowerFrom(e, s, 1)[0] == e.lower(s, 1)[0];
    }
  }

  lemma {:induction false} LowerOfDigits(e: Env, s: string, i: nat)
    requires Lawful(e) && i <= |s|
    ensures (forall k :: 0 <= k < |LowerFrom(e, s, i)| ==> IsDigit(LowerFrom(e, s, i)[k])) ==>
            forall j :: i <= j < |s| ==> IsDigit(s[j])
    decreases |s| - i
  {
    if i < |s| {
      LowerUnfold(e, s, i);
      LowerOfDigits(e, s, i + 1);
      var l, head, rest := LowerFrom(e, s, i), e.lower(s, i), LowerFrom(e, s, i + 1);
      assert l[0] == head[0];
      assert forall k :: 0 <= k < |rest| ==> rest[k] == l[|head| + k];
    }
  }

  /** Lowercasing does not make text phone-like. */
  lemma LowerNotPhone(e: Env, s: string)
    requires Lawful(e) && s != "" && !IsPhoneLike(s)
    ensures !IsPhoneLike(Lower(e, s))
  {
    LowerStartsPlus(e, s);
    LowerStartsZeros(e, s);
    LowerOfDigits(e, s, 0);
  }

  lemma LowerTight(e: Env, s: string)
    requires Lawful(e) && s != "" && Tight(e, s)
    ensures Lower(e, s) != "" && Tight(e, Lower(e, s))
  {
    assert LawfulLower(e, s, 0);
    var l := Lower(e, s);
    assert l[0] == e.lower(s, 0)[0];
    NotSpace(e, s, 0, l[0]);
    LowerLast(e, s, 0);
    NotSpace(e, s, |s| - 1, l[|l| - 1]);
  }

  lemma NotSpace(e: Env, s: string, i: int, c: char)
    requires Lawful(e) && 0 <= i < |s| && c in e.lower(s, i) && !e.isSpace(s[i])
    ensures !e.isSpace(c)
  {
    assert LawfulLower(e, s, i);
    assert 'A' <= s[i] <= 'Z' ==> IsWordChar(AsciiLower(s[i]));
  }

  lemma {:induction false} LowerLast(e: Env, s: string, i: nat)
    requires Lawful(e) && i < |s|
    ensures |LowerFrom(e, s, i)| > 0 && LowerFrom(e, s, i)[|LowerFrom(e, s, i)| - 1] in e.lower(s, |s| - 1)
    decreases |s| - i
  {
    assert LawfulLower(e, s, i);
    if i + 1 < |s| {
      LowerLast(e, s, i + 1);
    } else {
      assert LowerFrom(e, s, i) == e.lower(s, i);
    }
  }

  // ----- canonical names -----

  lemma NameNotPhone(c: string)
    requires UsernamePattern(c) && !StartsWith(c, "00")
    ensures !IsPhoneLike(c)
  {
    StartsWithOne(c, '+');
    assert SM.IsUsernameChar(c[0]);
    var i :| 0 <= i < |c| && 'a' <= c[i] <= 'z';
    assert !IsDigit(c[i]);
  }

  lemma CheckedIsItself(e: Env, c: string)
    requires Lawful(e) && UsernamePattern(c)
    ensures CheckedUsername(e, c) == Ok(c)
  {
    assert IsWordChar(c[0]) && IsWordChar(c[|c| - 1]);
    TrimTight(e, c);
    LowerOfLegal(e, c, 0);
    assert c[0..] == c;
  }

  /** A canonical username is its own canonical form, with or without a wallet modifier. */
  lemma UsernameReparses(e: Env, c: string, w: Option<WalletKind>)
    requires Lawful(e) && UsernamePattern(c) && !StartsWith(c, "00")
    ensures Parse(e, c + WalletSuffix(w)) == Ok(Parsed(c, Username, w))
    ensures Trim(e, c + WalletSuffix(w)) == c + WalletSuffix(w)
  {
    assert forall i :: 0 <= i < |c| ==> SM.IsUsernameChar(c[i]);
    SuffixTight(e, c, w);
    SplitCallback(c, w);
    NameNotPhone(c);
    CheckedIsItself(e, c);
    assert ParseBase(e, Split(c, w)) == Ok(Parsed(c, Username, w));
  }

  /** A name the registration accepts although the public routes read it as a phone number. */
  lemma RegistrableButUnreachable(e: Env)
    requires Lawful(e)
    ensures CheckedUsername(e, "00abc") == Ok("00abc")
    ensures RouteParse(e, "00abc") != Ok(Some(Intent("00abc", None, "00abc")))
  {
    var c := "00abc";
    assert 'a' <= c[2] <= 'z' && c[..1][0] == c[..3][0] == c[..5][0] == '0';
    CheckedIsItself(e, c);
    StartsWithTwo(c, '0', '0');
    RegisteredResolvesExactly(e, c);
  }

  /** A registrable username resolves to itself exactly when it does not begin with 00. */
  lemma RegisteredResolvesExactly(e: Env, c: string)
    requires Lawful(e) && UsernamePattern(c)
    ensures RouteParse(e, c) == Ok(Some(Intent(c, None, c))) <==> !StartsWith(c, "00")
  {
    assert IsWordChar(c[0]) && IsWordChar(c[|c| - 1]);
    TrimTight(e, c);
    if StartsWith(c, "00") {
      assert c[0] == c[..2][0] == '0';
      assert forall i :: 0 <= i < |c| ==> SM.IsUsernameChar(c[i]);
      assert SplitModifier(c) == Ok(Split(c, None));
      assert IsPhoneLike(c);
    } else {
      UsernameReparses(e, c, None);
      assert c + WalletSuffix(None) == c;
    }
  }

  lemma SuffixTight(e: Env, c: string, w: Option<WalletKind>)
    requires Lawful(e) && c != "" && IsWordChar(c[0]) && IsWordChar(c[|c| - 1])
    ensures Trim(e, c + WalletSuffix(w)) == c + WalletSuffix(w)
  {
    var s := c + WalletSuffix(w);
    assert IsWordChar(s[0]) && IsWordChar(s[|s| - 1]);
    TrimTight(e, s);
  }

  /** The modifier of a callback identifier is found where it was put. */
  lemma SplitCallback(c: string, w: Option<WalletKind>)
    requires c != "" && FindPlus(c, 1).None?
    ensures SplitModifier(c + WalletSuffix(w)) == Ok(Split(c, w))
  {
    var s := c + WalletSuffix(w);
    match w {
      case None => assert s == c;
      case Some(k) =>
        assert forall j :: 1 <= j < |c| ==> s[j] == c[j];
        assert s[|c|] == '+';
        assert FindPlus(s, 1) == Some(|c|);
        assert s[|c| + 1..] == WalletSuffix(w)[1..];
        assert AsciiLowerAll(s[|c| + 1..]) == WalletSuffix(w)[1..];
        assert s[..|c|] == c;
    }
  }

  /** Any spelling of a username, in upper or lower case, parses to its lowercase form. */
  lemma AnyCaseParses(e: Env, s: string)
    requires Lawful(e) && s != "" && Tight(e, s) && FindPlus(s, 1).None? && !IsPhoneLike(s)
    ensures Parse(e, s) == if UsernamePattern(Lower(e, s)) then Ok(Parsed(Lower(e, s), Username, None))
            else Err(InvalidUsername)
    ensures (forall i :: 0 <= i < |s| ==> IsAscii(s[i])) ==> Lower(e, s) == AsciiLowerAll(s)
  {
    TrimTight(e, s);
    if forall i :: 0 <= i < |s| ==> IsAscii(s[i]) { LowerOfAscii(e, s, 0); }
  }

  lemma {:induction false} LowerOfAscii(e: Env, s: string, i: nat)
    requires Lawful(e) && i <= |s| && forall j :: 0 <= j < |s| ==> IsAscii(s[j])
    ensures LowerFrom(e, s, i) == AsciiLowerAll(s)[i..]
    decreases |s| - i
  {
    if i < |s| {
      assert LawfulLower(e, s, i);
      LowerOfAscii(e, s, i + 1);
      assert AsciiLowerAll(s)[i..] == [AsciiLower(s[i])] + AsciiLowerAll(s)[i + 1..];
    }
  }

  /** After a username only the modifiers btc and usd are known, in any case. */
  lemma ModifierExactly(e: Env, c: string, m: string)
    requires Lawful(e) && UsernamePattern(c) && !StartsWith(c, "00") && Tight(e, m)
    ensures Parse(e, c + "+" + m) ==
            if AsciiLowerAll(m) == "btc" then Ok(Parsed(c, Username, Some(Btc)))
            else if AsciiLowerAll(m) == "usd" then Ok(Parsed(c, Username, Some(Usd)))
            else Err(InvalidModifier)
  {
    var s := c + "+" + m;
    assert forall i :: 0 <= i < |c| ==> SM.IsUsernameChar(c[i]);
    assert IsWordChar(s[0]) && (m == "" ==> IsWordChar(s[|s| - 1]));
    assert m != "" ==> s[|s| - 1] == m[|m| - 1];
    TrimTight(e, s);
    assert forall j :: 1 <= j < |c| ==> s[j] == c[j];
    assert s[|c|] == '+';
    assert FindPlus(s, 1) == Some(|c|);
    assert s[..|c|] == c && s[|c| + 1..] == m;
    NameNotPhone(c);
    CheckedIsItself(e, c);
  }

  lemma PhoneReparses(e: Env, c: string, w: Option<WalletKind>)
    requires Lawful(e) && IsE164(c) && e.phone(c) == Some(c)
    ensures Parse(e, c + WalletSuffix(w)) == Ok(Parsed(c, Phone, w))
    ensures Trim(e, c + WalletSuffix(w)) == c + WalletSuffix(w)
  {
    SuffixTight(e, c, w);
    SplitCallback(c, w);
    assert IsWordChar(c[0]) && IsWordChar(c[|c| - 1]);
    TrimTight(e, c);
    assert c[..1] == "+";
  }

  /** A username the parser returned does not look like a phone number to it. */
  lemma CanonicalNotPhone(e: Env, base: string)
    requires Lawful(e) && base != "" && !e.isSpace(base[0]) && !IsPhoneLike(base)
    requires CheckedUsername(e, base).Ok?
    ensures !StartsWith(CheckedUsername(e, base).value, "00")
  {
    TrimIsPrefix(e, base);
    var t := Trim(e, base);
    LowerStartsZeros(e, t);
    StartsWithTwo(t, '0', '0');
    StartsWithTwo(base, '0', '0');
  }

  /** A looked-up legacy name, which breaks the username rules, is its own canonical form. */
  lemma LegacyReparses(e: Env, t: string)
    requires Lawful(e) && t != "" && Tight(e, t) && IsLegacyCandidate(t) && Parse(e, t) == Err(InvalidUsername)
    ensures var name := Lower(e, t); RouteParse(e, name) == Ok(Some(Intent(name, None, name)))
  {
    var name := Lower(e, t);
    TrimTight(e, t);
    LowerTight(e, t);
    TrimTight(e, name);
    LowerNotPhone(e, t);
    StartsWithOne(t, '+');
    assert Without(t, '+');
    LowerNoPlus(e, t);
    assert FindPlus(name, 1).None?;
    assert Lower(e, name) == name;
    assert !UsernamePattern(name);
  }

  /** The two forms a parsed identifier can have. */
  lemma ParsedForm(e: Env, t: string)
    requires Lawful(e) && t != "" && Tight(e, t) && Parse(e, t).Ok?
    ensures var p := Parse(e, t).value;
            if p.kind == Phone then IsE164(p.canonical) && e.phone(p.canonical) == Some(p.canonical)
            else UsernamePattern(p.canonical) && !StartsWith(p.canonical, "00")
  {
    TrimTight(e, t);
    var x := SplitModifier(t).value;
    assert x.base != "" && x.base[0] == t[0];
    if !IsPhoneLike(x.base) { CanonicalNotPhone(e, x.base); }
  }

  /**
   * Every identifier the public route accepts has a callback identifier that
   * parses to the same canonical name, wallet and callback identifier.
   */
  lemma CallbackIsFixedPoint(e: Env, value: string)
    requires Lawful(e)
    requires RouteParse(e, value).Ok? && RouteParse(e, value).value.Some?
    ensures RouteParse(e, RouteParse(e, value).value.value.callback) == RouteParse(e, value)
  {
    var t := Trim(e, value);
    TrimIsTight(e, value);
    if Parse(e, t).Ok? {
      ParsedForm(e, t);
      var p := Parse(e, t).value;
      if p.kind == Phone {
        PhoneReparses(e, p.canonical, p.wallet);
      } else {
        UsernameReparses(e, p.canonical, p.wallet);
      }
    } else {
      LegacyReparses(e, t);
    }
  }

  /** Canonical usernames are what the signed messages take for usernames. */
  lemma CanonicalUsernameIsLegal(e: Env, value: string)
    requires CheckedUsername(e, value).Ok?
    ensures SM.LegalUsername(CheckedUsername(e, value).value)
  {
  }

  /** Local, international and 00-prefixed spellings of a number are one identifier. */
  lemma PhoneSpellingsAgree(e: Env, digits: string)
    requires Lawful(e) && digits != "" && !StartsWith(digits, "00")
    requires forall i :: 0 <= i < |digits| ==> IsDigit(digits[i])
    ensures Parse(e, "+" + digits) == Parse(e, digits) == Parse(e, "00" + digits)
    ensures Parse(e, digits).Err? ==> Parse(e, digits).error == InvalidPhoneNumber
  {
    PhoneSpelling(e, "+", digits);
    PhoneSpelling(e, "", digits);
    PhoneSpelling(e, "00", digits);
    assert "" + digits == digits;
  }

  /**
   * What the public routes answer besides a name: nothing for a number the phone
   * library refuses, and errors for empty text, for text after a plus sign that
   * is no modifier, and for a name with a modifier that breaks the rules.
   */
  lemma RouteRefusals(e: Env, value: string, t: string)
    requires Lawful(e) && t == Trim(e, value)
    ensures t == "" ==> RouteParse(e, value) == Err(EmptyIdentifier)
    ensures t != "" && SplitModifier(t).Err? ==> RouteParse(e, value) == Err(InvalidModifier)
    ensures t != "" && FindPlus(t, 1).None? ==>
              RouteParse(e, value).Ok? && (RouteParse(e, value).value.None?
                                           <==> IsPhoneLike(t) && CheckedPhone(e, t).Err?)
    ensures FindPlus(t, 1).Some? && SplitModifier(t).Ok? && !IsPhoneLike(SplitModifier(t).value.base)
            && CheckedUsername(e, SplitModifier(t).value.base).Err? ==>
              RouteParse(e, value) == Err(InvalidUsername)
  {
    TrimIsTight(e, value);
    TrimTight(e, t);
  }

  lemma PhoneSpelling(e: Env, prefix: string, digits: string)
    requires Lawful(e) && prefix in {"", "+", "00"}
    requires digits != "" && !StartsWith(digits, "00") && forall i :: 0 <= i < |digits| ==> IsDigit(digits[i])
    ensures Parse(e, prefix + digits) == match e.phone("+" + digits) {
              case None => Err(InvalidPhoneNumber)
              case Some(p) => Ok(Parsed(p, Phone, None))
            }
  {
    var s := prefix + digits;
    assert IsWordChar(s[0]) && IsWordChar(s[|s| - 1]);
    TrimTight(e, s);
    assert FindPlus(s, 1).None?;
    StartsWithOne(s, '+');
    StartsWithTwo(s, '0', '0');
    StartsWithTwo(digits, '0', '0');
    assert SplitModifier(s) == Ok(Split(s, None));
    if prefix == "00" {
      assert s[0] == '0' && s[1] == '0' && s[2..] == digits;
    } else if prefix == "+" {
      assert s[0] == '+';
    } else {
      assert s == digits && IsDigit(s[0]);
    }
    assert IsPhoneLike(s);
  }

  // ----- LUD-06 -----

  /** get_metadata_for_recipient, as the two fields of its JSON. */
  datatype Metadata = Metadata(description: string, identifier: string)

  function MetadataFor(description: string, domain: string, callback: string): Metadata {
    Metadata(description, callback + "@" + domain)
  }

  /** What a route that was given `identifier` computes for the recipient table `t` of its domain. */
  ghost function AdvertisedMetadata(e: Env, t: map<Name, string>, domain: string,
                                    identifier: string): Option<Metadata> {
    match RouteParse(e, identifier) {
      case Ok(Some(x)) =>
        if Name(domain, x.canonical) in t then Some(MetadataFor(t[Name(domain, x.canonical)], domain, x.callback))
          else None
      case _ => None
    }
  }

  /** The metadata hashed into the invoice, computed from the callback identifier, is the one discovery advertised. */
  lemma InvoiceMetadataIsAdvertised(e: Env, t: map<Name, string>, domain: string, value: string)
    requires Lawful(e)
    requires RouteParse(e, value).Ok? && RouteParse(e, value).value.Some?
    ensures AdvertisedMetadata(e, t, domain, RouteParse(e, value).value.value.callback)
            == AdvertisedMetadata(e, t, domain, value)
    ensures var x := RouteParse(e, value).value.value;
            var m := AdvertisedMetadata(e, t, domain, value);
            && (m.Some? <==> Name(domain, x.canonical) in t)
            && (m.Some? ==> m.value.description == t[Name(domain, x.canonical)]
                            && m.value.identifier == x.callback + "@" + domain)
  {
    CallbackIsFixedPoint(e, value);
  }

  // ----- the assumptions are consistent -----

  function AsciiEnv(): Env {
    Env(c => c == ' ',
        (s: string, i: int) => if 0 <= i < |s| then [AsciiLower(s[i])] else "",
        s => if IsE164(s) then Some(s) else None)
  }

  lemma {:induction false} AsciiLowerText(s: string, i: nat)
    requires i <= |s|
    ensures LowerFrom(AsciiEnv(), s, i) == AsciiLowerAll(s)[i..]
    decreases |s| - i
  {
    if i < |s| {
      AsciiLowerText(s, i + 1);
      assert AsciiLowerAll(s)[i..] == [AsciiLower(s[i])] + AsciiLowerAll(s)[i + 1..];
    }
  }

  lemma AsciiIsLawful()
    ensures Lawful(AsciiEnv())
  {
    var e := AsciiEnv();
    forall s: string, i: int | 0 <= i < |s| ensures LawfulLower(e, s, i) {
    }
    forall s: string ensures Lower(e, Lower(e, s)) == Lower(e, s) {
      AsciiLowerText(s, 0);
      AsciiLowerText(Lower(e, s), 0);
      assert AsciiLowerAll(AsciiLowerAll(s)) == AsciiLowerAll(s);
    }
  }
}
