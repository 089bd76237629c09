/**
 Account identifiers: CAIP-10 validation restricted to eip155 with the ERC-55 checksum, the address that the
 Rust code slices out of an account, and the SQL notion of the same address.

 The digest behind ERC-55 stands for any function to 64 hexadecimal characters: nothing here depends on which.
 */
module AccountId {
  import opened Wrappers

  const HEX := "0123456789abcdef"
  const CAPITAL_HEX := "0123456789ABCDEF"

  /** The hexadecimal Keccak-256 digest of a string. */
  type Digest = h: string -> string | forall s :: |h(s)| == 64 && forall i :: 0 <= i < 64 ==> IsLowerHex(h(s)[i])
    witness (s: string) => seq(64, i => '0')

  // ----- Characters and slices -----

  predicate IsDigit(c: char) {
    '0' <= c <= '9'
  }

  predicate IsAsciiLower(c: char) {
    'a' <= c <= 'z'
  }

  predicate IsAsciiUpper(c: char) {
    'A' <= c <= 'Z'
  }

  predicate IsHex(c: char) {
    IsDigit(c) || 'a' <= c <= 'f' || 'A' <= c <= 'F'
  }

  predicate IsLowerHex(c: char) {
    IsDigit(c) || 'a' <= c <= 'f'
  }

  function LowerChar(c: char): char {
    if IsAsciiUpper(c) then c - 'A' + 'a' else c
  }

  function UpperChar(c: char): char {
    if IsAsciiLower(c) then c - 'a' + 'A' else c
  }

  function Lower(s: string): string {
    seq(|s|, i requires 0 <= i < |s| => LowerChar(s[i]))
  }

  /** The index of the first `c`, or the length of the string when there is none. */
  function Find(s: string, c: char): (i: nat)
    ensures i <= |s| && c !in s[..i]
    ensures i < |s| ==> s[i] == c
  {
    if s == [] || s[0] == c then
      0
    else
      assert s[..1 + Find(s[1..], c)] == [s[0]] + s[1..][..Find(s[1..], c)];
      1 + Find(s[1..], c)
  }

  lemma {:induction false} FindPrefix(a: string, c: char, b: string)
    requires c !in a
    ensures Find(a + [c] + b, c) == |a|
  {
    if a != [] {
      assert (a + [c] + b)[1..] == a[1..] + [c] + b;
      FindPrefix(a[1..], c, b);
    }
  }

  // ----- Validation -----

  datatype Invalid = NotCaip10 | UnsupportedNamespace | Eip155Reference | Eip155AddressRegex | Eip155AddressErc55

  predicate IsNamespaceChar(c: char) {
    c == '-' || IsAsciiLower(c) || IsDigit(c)
  }

  predicate IsReferenceChar(c: char) {
    c == '-' || c == '_' || IsAsciiLower(c) || IsAsciiUpper(c) || IsDigit(c)
  }

  predicate IsAddressChar(c: char) {
    c == '-' || c == '.' || c == '%' || IsAsciiLower(c) || IsAsciiUpper(c) || IsDigit(c)
  }

  datatype Parts = Parts(namespace: string, reference: string, address: string) {
    predicate MatchesCaip10() {
      && 3 <= |namespace| <= 8 && (forall c :: c in namespace ==> IsNamespaceChar(c))
      && 1 <= |reference| <= 32 && (forall c :: c in reference ==> IsReferenceChar(c))
      && 1 <= |address| <= 128 && (forall c :: c in address ==> IsAddressChar(c))
    }

    function Format(): string {
      namespace + ":" + reference + ":" + address
    }
  }

  /** The captures of the CAIP-10 pattern. No class contains a colon, so the first two colons delimit them. */
  function Captures(s: string): Option<Parts> {
    var i := Find(s, ':');
    if i == |s| then
      None
    else
      var rest := s[i + 1..];
      var j := Find(rest, ':');
      if j == |rest| then
        None
      else
        var parts := Parts(s[..i], rest[..j], rest[j + 1..]);
        if parts.MatchesCaip10() then Some(parts) else None
  }

  const NAMESPACE_EIP155 := "eip155"

  predicate MatchesAddressPattern(address: string) {
    |address| == 42 && address[..2] == "0x" && forall i :: 2 <= i < 42 ==> IsHex(address[i])
  }

  /** Upper-cases each letter whose digest character is above '7'. */
  function Erc55ChecksumEncode(h: Digest, hex: string): (r: string)
    requires |hex| <= 64
    ensures |r| == |hex|
  {
    seq(|hex|, i requires 0 <= i < |hex| =>
      if !IsDigit(hex[i]) && h(hex)[i] > '7' then UpperChar(hex[i]) else hex[i])
  }

  function ValidateEip155Address(h: Digest, address: string): Result<(), Invalid> {
    if !MatchesAddressPattern(address) then
      Err(Eip155AddressRegex)
    else if Erc55ChecksumEncode(h, Lower(address[2..])) == address[2..] then
      Ok(())
    else
      Err(Eip155AddressErc55)
  }

  function ValidateEip155(h: Digest, reference: string, address: string): Result<(), Invalid> {
    if reference == "" || exists c :: c in reference && !IsDigit(c) then
      Err(Eip155Reference)
    else
      ValidateEip155Address(h, address)
  }

  function ValidateCaip10(h: Digest, s: string): Result<(), Invalid> {
    match Captures(s)
    case None => Err(NotCaip10)
    case Some(parts) =>
      if parts.namespace == NAMESPACE_EIP155 then
        ValidateEip155(h, parts.reference, parts.address)
      else
        Err(UnsupportedNamespace)
  }

  /** The strings an `AccountId` can hold. */
  predicate IsAccount(h: Digest, s: string) {
    ValidateCaip10(h, s).Ok?
  }

  // ----- The address of an account -----

  const KNOWN_SKIPPABLE_PREFIX_LEN := |"eip155:1"|

  /** `get_address_from_account`: `None` stands for a panic, from the slice or from the `expect`. */
  function GetAddressFromAccount(s: string): Option<string> {
    if |s| < KNOWN_SKIPPABLE_PREFIX_LEN then
      None
    else
      var rest := s[KNOWN_SKIPPABLE_PREFIX_LEN..];
      var i := Find(rest, ':');
      if i == |rest| then None else Some(rest[i + 1..])
  }

  function EqIgnoreAsciiCase(a: string, b: string): bool {
    Lower(a) == Lower(b)
  }

  function IsSameAddress(account1: string, account2: string): Option<bool> {
    match (GetAddressFromAccount(account1), GetAddressFromAccount(account2))
    case (Some(a), Some(b)) => Some(EqIgnoreAsciiCase(a, b))
    case _ => None
  }

  /** SQL's `split_part(s, ':', n)`: the n-th field counting from 1, empty when there are fewer. */
  function SplitPart(s: string, n: nat): string
    requires n >= 1
    decreases n
  {
    var i := Find(s, ':');
    if n == 1 then s[..i] else if i == |s| then "" else SplitPart(s[i + 1..], n - 1)
  }

  /** `get_address_lower` of the migration. */
  function GetAddressLower(account: string): string {
    Lower(SplitPart(account, 3))
  }

  // ----- The three notions of an address agree -----

  lemma CutAtColon(s: string, i: nat)
    requires i < |s| && s[i] == ':'
    ensures s == s[..i] + ":" + s[i + 1..]
  {
  }

  lemma CapturedFormats(s: string)
    requires Captures(s).Some?
    ensures Captures(s).value.MatchesCaip10() && s == Captures(s).value.Format()
  {
    var i := Find(s, ':');
    var rest := s[i + 1..];
    var j := Find(rest, ':');
    CutAtColon(s, i);
    CutAtColon(rest, j);
    Rejoin(s[..i], rest[..j], rest[j + 1..]);
  }

  lemma Rejoin(a: string, b: string, c: string)
    ensures a + ":" + (b + ":" + c) == a + ":" + b + ":" + c
  {
  }

  lemma FirstField(a: string, b: string)
    requires ':' !in a
    ensures var s := a + ":" + b; Find(s, ':') == |a| && s[..|a|] == a && s[|a| + 1..] == b
  {
    FindPrefix(a, ':', b);
  }

  lemma FormatCaptured(parts: Parts)
    requires parts.MatchesCaip10()
    ensures Captures(parts.Format()) == Some(parts)
  {
    var tail := parts.reference + ":" + parts.address;
    Rejoin(parts.namespace, parts.reference, parts.address);
    assert ':' !in parts.namespace && ':' !in parts.reference;
    FirstField(parts.namespace, tail);
    FirstField(parts.reference, parts.address);
  }

  /** Exactly the formatted triples are captured: the pattern has one way to match. */
  lemma CapturesExact(s: string, parts: Parts)
    ensures Captures(s) == Some(parts) <==> parts.MatchesCaip10() && s == parts.Format()
  {
    if Captures(s).Some? {
      CapturedFormats(s);
    }
    if parts.MatchesCaip10() {
      FormatCaptured(parts);
    }
  }

  /** An accepted account is "eip155", a decimal chain reference and a checksummed address. */
  lemma AccountShape(h: Digest, s: string) returns (reference: string, address: string)
    requires IsAccount(h, s)
    ensures reference != "" && (forall c :: c in reference ==> IsDigit(c))
    ensures ValidateEip155Address(h, address).Ok?
    ensures s == Parts(NAMESPACE_EIP155, reference, address).Format()
    ensures ':' !in address
  {
    var parts := Captures(s).value;
    CapturesExact(s, parts);
    reference, address := parts.reference, parts.address;
  }

  lemma SplitPartStep(field: string, rest: string, n: nat)
    requires n >= 2 && ':' !in field
    ensures SplitPart(field + ":" + rest, n) == SplitPart(rest, n - 1)
  {
    var s := field + ":" + rest;
    FindPrefix(field, ':', rest);
    assert s[|field| + 1..] == rest;
  }

  lemma ThirdField(reference: string, address: string)
    requires ':' !in reference && ':' !in address
    ensures SplitPart(Parts(NAMESPACE_EIP155, reference, address).Format(), 3) == address
  {
    var tail := reference + ":" + address;
    assert Parts(NAMESPACE_EIP155, reference, address).Format() == NAMESPACE_EIP155 + ":" + tail;
    SplitPartStep(NAMESPACE_EIP155, tail, 3);
    SplitPartStep(reference, address, 2);
    assert Find(address, ':') == |address|;
  }

  lemma SlicedAddress(reference: string, address: string)
    requires reference != "" && ':' !in reference
    ensures GetAddressFromAccount(Parts(NAMESPACE_EIP155, reference, address).Format()) == Some(address)
  {
    var s := Parts(NAMESPACE_EIP155, reference, address).Format();
    var rest := reference[1..] + ":" + address;
    assert s[KNOWN_SKIPPABLE_PREFIX_LEN..] == rest;
    FindPrefix(reference[1..], ':', address);
    assert rest[|reference|..] == address;
  }

  /** On every accepted account the Rust slice does not panic and is SQL's third field. */
  lemma AddressOfAccount(h: Digest, s: string)
    requires IsAccount(h, s)
    ensures GetAddressFromAccount(s) == Some(SplitPart(s, 3))
    ensures ValidateEip155Address(h, SplitPart(s, 3)).Ok?
  {
    var reference, address := AccountShape(h, s);
    SlicedAddress(reference, address);
    ThirdField(reference, address);
  }

  /** A checksummed address is determined by its lower-case form. */
  lemma ChecksumDetermined(h: Digest, a: string, b: string)
    requires ValidateEip155Address(h, a).Ok? && ValidateEip155Address(h, b).Ok?
    requires Lower(a) == Lower(b)
    ensures a == b
  {
    assert Lower(a[2..]) == Lower(a)[2..] && Lower(b[2..]) == Lower(b)[2..];
    assert a == "0x" + a[2..] && b == "0x" + b[2..];
  }

  lemma SpelledAlike(h: Digest, a: string, b: string)
    requires ValidateEip155Address(h, a).Ok? && ValidateEip155Address(h, b).Ok?
    ensures Lower(a) == Lower(b) <==> a == b
  {
    if Lower(a) == Lower(b) {
      ChecksumDetermined(h, a, b);
    }
  }

  /**
   Address agreement: for accepted accounts the Rust comparison, the SQL comparison and plain equality of the
   addresses are one relation, and none of the calls panics.
   */
  lemma AddressAgreement(h: Digest, s: string, t: string)
    requires IsAccount(h, s) && IsAccount(h, t)
    ensures GetAddressFromAccount(s).Some? && GetAddressFromAccount(t).Some?
    ensures IsSameAddress(s, t) == Some(GetAddressLower(s) == GetAddressLower(t))
    ensures IsSameAddress(s, t) == Some(GetAddressFromAccount(s) == GetAddressFromAccount(t))
    ensures GetAddressLower(s) == Lower(GetAddressFromAccount(s).value)
  {
    AddressOfAccount(h, s);
    AddressOfAccount(h, t);
    SpelledAlike(h, SplitPart(s, 3), SplitPart(t, 3));
  }

  /** A recased address is accepted exactly in the spelling of its checksum. */
  lemma SpellingExactly(h: Digest, hex: string, address: string)
    requires |hex| == 40 && |address| == 42 && Lower(address[2..]) == hex
    requires forall i :: 2 <= i < 42 ==> IsHex(address[i])
    ensures ValidateEip155Address(h, address).Ok? <==> address == "0x" + Erc55ChecksumEncode(h, hex)
  {
    assert address == address[..2] + address[2..];
  }

  lemma RecasedAddress(hex: string, address: string)
    requires |hex| == 40 && (forall c :: c in hex ==> IsHex(c))
    requires |address| == 42 && Lower(address) == "0x" + hex
    ensures Lower(address[2..]) == hex && forall i :: 0 <= i < 40 ==> IsLowerHex(hex[i])
    ensures forall c :: c in address ==> IsAddressChar(c)
    ensures forall i :: 2 <= i < 42 ==> IsHex(address[i])
  {
    assert Lower(address[2..]) == Lower(address)[2..];
    forall i | 0 <= i < 42
      ensures IsAddressChar(address[i]) && (2 <= i ==> IsHex(address[i]))
    {
      assert LowerChar(address[i]) == ("0x" + hex)[i];
      assert 2 <= i ==> hex[i - 2] in hex;
    }
  }

  /** The three classes of characters, one by one. */
  lemma Caip10Chars(c: char)
    ensures IsNamespaceChar(c) <==> c in "abcdefghijklmnopqrstuvwxyz" || c in "0123456789" || c == '-'
    ensures IsReferenceChar(c) <==> IsNamespaceChar(c) || c in "ABCDEFGHIJKLMNOPQRSTUVWXYZ" || c == '_'
    ensures IsAddressChar(c) <==>
      IsNamespaceChar(c) || c in "ABCDEFGHIJKLMNOPQRSTUVWXYZ" || c == '.' || c == '%'
  {
  }

  lemma RejectedParts(h: Digest, s: string, parts: Parts)
    requires Captures(s) == Some(parts)
    ensures
      var result := ValidateCaip10(h, s);
      && result != Err(NotCaip10)
      && (result == Err(UnsupportedNamespace) <==> parts.namespace != "eip155")
      && (result == Err(Eip155Reference) <==> parts.namespace == "eip155" && !OnlyDigits(parts.reference))
      && (result == Err(Eip155AddressRegex) <==>
            parts.namespace == "eip155" && OnlyDigits(parts.reference) && !IsHexAddress(parts.address))
  {
    CapturedFormats(s);
    assert parts.reference != "";
    assert OnlyDigits(parts.reference) <==> !exists c :: c in parts.reference && !IsDigit(c);
  }

  /** Why a string is no account: its form, its namespace, its chain, or its address; else it is its capitals. */
  lemma RejectedFor(h: Digest, s: string, parts: Parts)
    ensures ValidateCaip10(h, s) == Err(NotCaip10) <==> forall p :: !IsCaip10(s, p)
    ensures IsCaip10(s, parts) ==>
      var result := ValidateCaip10(h, s);
      && (result == Err(UnsupportedNamespace) <==> parts.namespace != "eip155")
      && (result == Err(Eip155Reference) <==> parts.namespace == "eip155" && !OnlyDigits(parts.reference))
      && (result == Err(Eip155AddressRegex) <==>
            parts.namespace == "eip155" && OnlyDigits(parts.reference) && !IsHexAddress(parts.address))
  {
    forall p ensures Captures(s) == Some(p) <==> IsCaip10(s, p) {
      CapturesExact(s, p);
    }
    if Captures(s).Some? {
      RejectedParts(h, s, Captures(s).value);
    }
  }

  predicate IsCaip10(s: string, parts: Parts) {
    parts.MatchesCaip10() && s == parts.namespace + ":" + parts.reference + ":" + parts.address
  }

  predicate OnlyDigits(s: string) {
    forall c :: c in s ==> IsDigit(c)
  }

  predicate IsHexAddress(address: string) {
    |address| == 42 && address[..2] == "0x" && forall i :: 2 <= i < 42 ==> IsHex(address[i])
  }

  // ----- The accepted accounts, character by character -----

  lemma HexChars(v: nat)
    requires v < 16
    ensures HEX[v] == (if v < 10 then '0' + v as char else 'a' + (v - 10) as char)
    ensures CAPITAL_HEX[v] == (if v < 10 then '0' + v as char else 'A' + (v - 10) as char)
  {
    if v < 8 {
      assert v == 0 || v == 1 || v == 2 || v == 3 || v == 4 || v == 5 || v == 6 || v == 7;
    } else {
      assert v == 8 || v == 9 || v == 10 || v == 11 || v == 12 || v == 13 || v == 14 || v == 15;
    }
  }

  /** The value of a hexadecimal digit. */
  lemma HexValue(c: char) returns (v: nat)
    requires IsHex(c)
    ensures v < 16 && LowerChar(c) == HEX[v] && (c == HEX[v] || c == CAPITAL_HEX[v])
  {
    v := if IsDigit(c) then c as int - '0' as int
         else if IsAsciiLower(c) then c as int - 'a' as int + 10
         else c as int - 'A' as int + 10;
    HexChars(v);
  }

  /** The capital spelling of a hexadecimal digit, or the other one. */
  predicate IsSpelled(lower: char, c: char, capital: bool) {
    exists v: nat :: v < 16 && lower == HEX[v] && c == (if capital then CAPITAL_HEX[v] else HEX[v])
  }

  /** A hexadecimal digit of value 8 or more. */
  predicate IsHigh(c: char) {
    exists w: nat :: 8 <= w < 16 && c == HEX[w]
  }

  /**
   Character `i` of an address: it is a capital, if it is a letter, exactly when the digest of the lower-case address
   has a digit of value 8 or more there.
   */
  predicate IsChecksummed(h: Digest, lower: string, c: char, i: nat)
    requires i < |lower| <= 64
  {
    IsSpelled(lower[i], c, IsHigh(h(lower)[i]))
  }

  ghost predicate AllChecksummed(h: Digest, lower: string, address: string) {
    |address| == |lower| <= 64 && forall i :: 0 <= i < |address| ==> IsChecksummed(h, lower, address[i], i)
  }

  lemma HighAbove(c: char)
    requires IsLowerHex(c)
    ensures IsHigh(c) <==> c > '7'
  {
    var v := HexValue(c);
    HexChars(v);
    if w: nat :| 8 <= w < 16 && c == HEX[w] {
      HexChars(w);
    }
  }

  lemma SpelledExactly(lower: char, c: char, capital: bool)
    requires IsLowerHex(lower)
    ensures IsSpelled(lower, c, capital) <==> c == (if capital && !IsDigit(lower) then UpperChar(lower) else lower)
  {
    var v := HexValue(lower);
    HexChars(v);
    if u: nat :| u < 16 && lower == HEX[u] && c == (if capital then CAPITAL_HEX[u] else HEX[u]) {
      HexChars(u);
    }
    assert IsSpelled(lower, if capital then CAPITAL_HEX[v] else HEX[v], capital);
  }

  lemma ChecksumAt(h: Digest, hex: string, i: nat, c: char)
    requires i < |hex| <= 64 && IsLowerHex(hex[i])
    ensures IsChecksummed(h, hex, c, i) <==> c == Erc55ChecksumEncode(h, hex)[i]
  {
    HighAbove(h(hex)[i]);
    SpelledExactly(hex[i], c, IsHigh(h(hex)[i]));
  }

  /**
   Every lower-case hexadecimal address has exactly one accepted spelling on a chain: of its letters those are capitals
   at which its digest has a digit of value 8 or more. So an address can be stored in lower case and recovered.
   */
  lemma OneSpellingPerChain(h: Digest, reference: string, hex: string, address: string)
    requires 1 <= |reference| <= 32 && (forall c :: c in reference ==> IsDigit(c))
    requires |hex| == 40 && Lower(hex) == hex && (forall c :: c in hex ==> IsHex(c))
    requires |address| == 42 && Lower(address) == "0x" + hex
    ensures IsAccount(h, Parts(NAMESPACE_EIP155, reference, address).Format())
       <==> address[..2] == "0x" && AllChecksummed(h, hex, address[2..])
  {
    var parts := Parts(NAMESPACE_EIP155, reference, address);
    CapturesExact(parts.Format(), parts);
    RecasedAddress(hex, address);
    ReferenceMatches(reference);
    SpellingExactly(h, hex, address);
    SpelledAt(h, hex, address);
  }

  lemma ReferenceMatches(reference: string)
    requires forall c :: c in reference ==> IsDigit(c)
    ensures forall c :: c in reference ==> IsReferenceChar(c)
  {
  }

  lemma SpelledAt(h: Digest, hex: string, address: string)
    requires |hex| == 40 && |address| == 42 && forall i :: 0 <= i < 40 ==> IsLowerHex(hex[i])
    ensures address == "0x" + Erc55ChecksumEncode(h, hex)
       <==> address[..2] == "0x" && AllChecksummed(h, hex, address[2..])
  {
    EncodedExactly(h, hex, address[2..]);
    assert address == address[..2] + address[2..];
    assert ("0x" + Erc55ChecksumEncode(h, hex))[2..] == Erc55ChecksumEncode(h, hex);
  }

  lemma EncodedExactly(h: Digest, lower: string, address: string)
    requires |address| == |lower| <= 64 && forall i :: 0 <= i < |lower| ==> IsLowerHex(lower[i])
    ensures AllChecksummed(h, lower, address) <==> Erc55ChecksumEncode(h, lower) == address
  {
    forall i | 0 <= i < |lower|
      ensures IsChecksummed(h, lower, address[i], i) <==> address[i] == Erc55ChecksumEncode(h, lower)[i]
    {
      ChecksumAt(h, lower, i, address[i]);
    }
  }

  /** An account in its parts: a chain and the address, which is also given in lower case. */
  ghost predicate IsAccepted(h: Digest, s: string, digits: string, address: string, lower: string) {
    && s == "eip155:" + digits + ":0x" + address
    && 1 <= |digits| <= 32 && (forall c :: c in digits ==> c in "0123456789")
    && |address| == 40 && AllChecksummed(h, lower, address)
  }

  lemma AcceptedFormat(digits: string, address: string)
    ensures "eip155:" + digits + ":0x" + address == Parts(NAMESPACE_EIP155, digits, "0x" + address).Format()
  {
    assert "eip155:" == "eip155" + ":" && ":0x" == ":" + "0x";
    assert "eip155:" + digits + (":" + "0x") + address == "eip155" + ":" + digits + ":" + ("0x" + address);
  }

  lemma LowerOfChecksummed(h: Digest, lower: string, address: string)
    requires AllChecksummed(h, lower, address)
    ensures Lower(address) == lower && forall i :: 0 <= i < |address| ==> IsHex(address[i]) && IsLowerHex(lower[i])
  {
    forall i | 0 <= i < |address|
      ensures LowerChar(address[i]) == lower[i] && IsHex(address[i]) && IsLowerHex(lower[i])
    {
      SpelledChar(lower[i], address[i], IsHigh(h(lower)[i]));
    }
  }

  lemma SpelledChar(lower: char, c: char, capital: bool)
    requires IsSpelled(lower, c, capital)
    ensures LowerChar(c) == lower && IsHex(c) && IsLowerHex(lower)
  {
    var v: nat :| v < 16 && lower == HEX[v] && c == (if capital then CAPITAL_HEX[v] else HEX[v]);
    HexChars(v);
  }

  lemma LowerHexOf(address: string)
    requires forall i :: 0 <= i < |address| ==> IsHex(address[i])
    ensures forall i :: 0 <= i < |address| ==> IsLowerHex(Lower(address)[i])
  {
  }

  lemma DigitsAre(digits: string)
    ensures (forall c :: c in digits ==> c in "0123456789") <==> (forall c :: c in digits ==> IsDigit(c))
  {
    forall c: char ensures c in "0123456789" <==> IsDigit(c) {
      if IsDigit(c) {
        var v := c as int - '0' as int;
        HexChars(v);
        assert "0123456789"[v] == HEX[v];
      }
    }
  }

  lemma PartsMatch(digits: string, address: string)
    requires 1 <= |digits| <= 32 && (forall c :: c in digits ==> IsDigit(c)) && |address| == 40
    requires forall i :: 0 <= i < 40 ==> IsHex(address[i])
    ensures Parts(NAMESPACE_EIP155, digits, "0x" + address).MatchesCaip10()
  {
    forall c | c in "0x" + address ensures IsAddressChar(c) {
    }
  }

  lemma HexAccepted(h: Digest, address: string)
    requires |address| == 40 && forall i :: 0 <= i < 40 ==> IsHex(address[i])
    ensures ValidateEip155Address(h, "0x" + address).Ok? <==> Erc55ChecksumEncode(h, Lower(address)) == address
  {
    var whole := "0x" + address;
    assert whole[2..] == address && whole[..2] == "0x";
    assert forall i :: 2 <= i < 42 ==> whole[i] == address[i - 2];
  }

  lemma PartsAccepted(h: Digest, digits: string, address: string)
    requires 1 <= |digits| <= 32 && (forall c :: c in digits ==> IsDigit(c)) && |address| == 40
    requires forall i :: 0 <= i < 40 ==> IsHex(address[i])
    ensures IsAccount(h, Parts(NAMESPACE_EIP155, digits, "0x" + address).Format())
       <==> Erc55ChecksumEncode(h, Lower(address)) == address
  {
    var parts := Parts(NAMESPACE_EIP155, digits, "0x" + address);
    PartsMatch(digits, address);
    CapturesExact(parts.Format(), parts);
    HexAccepted(h, address);
  }

  lemma AcceptedParts(h: Digest, s: string) returns (digits: string, address: string)
    requires IsAccount(h, s)
    ensures s == "eip155:" + digits + ":0x" + address && 1 <= |digits| <= 32 && |address| == 40
    ensures (forall c :: c in digits ==> IsDigit(c)) && (forall i :: 0 <= i < 40 ==> IsHex(address[i]))
    ensures Erc55ChecksumEncode(h, Lower(address)) == address
  {
    var parts := Captures(s).value;
    CapturesExact(s, parts);
    digits, address := parts.reference, parts.address[2..];
    assert parts.address == "0x" + address;
    AcceptedFormat(digits, address);
  }

  /**
   Exactly these strings are accounts: "eip155:", up to 32 decimal digits, ":0x", and 40 hexadecimal digits of which the
   letters are capitals exactly where the digest of the lower-case address has a digit of value 8 or more.
   */
  lemma AccountExactly(h: Digest, s: string)
    ensures IsAccount(h, s) <==> exists digits, address, lower :: IsAccepted(h, s, digits, address, lower)
  {
    if IsAccount(h, s) {
      var digits, address := AcceptedParts(h, s);
      var lower := Lower(address);
      LowerHexOf(address);
      DigitsAre(digits);
      EncodedExactly(h, lower, address);
      assert IsAccepted(h, s, digits, address, lower);
    }
    if digits, address, lower :| IsAccepted(h, s, digits, address, lower) {
      LowerOfChecksummed(h, lower, address);
      EncodedExactly(h, lower, address);
      DigitsAre(digits);
      AcceptedFormat(digits, address);
      PartsAccepted(h, digits, address);
    }
  }
}
