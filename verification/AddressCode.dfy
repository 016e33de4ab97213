/** Addresses: fourteen letters and digits printed from a 128-bit number, and the forms a person may type. */
module AddressCode {
  import opened Common
  import opened MixedRadix
  import opened Rewriting

  const LETTER_RUN := 3
  const DIGIT_RUN := 4

  /** Letters, then digits, twice over. */
  function RadixAt(i: int): pos
  {
    if i % (LETTER_RUN + DIGIT_RUN) < LETTER_RUN then 26 else 10
  }

  /** The mixed radix of an address, least significant symbol first. */
  function Radices(): (radices: seq<pos>)
    ensures |radices| == 14 && forall i :: 0 <= i < 14 ==> radices[i] == RadixAt(i)
  {
    seq(2 * (LETTER_RUN + DIGIT_RUN), i => RadixAt(i))
  }

  /** 26^6 * 10^8: how many addresses there are. */
  const SPACE: pos := 30891577600000000

  /** How many numbers sixteen bytes of digest can be. */
  const DIGESTS: nat := 0x1_0000_0000_0000_0000_0000_0000_0000_0000

  // ---------------------------------------------------------------- printing

  /** The symbol of a digit: a letter for radix 26, a figure for radix 10. */
  function Symbol(digit: nat, radix: nat): char
  {
    if radix == 26 then if digit < 26 then 'A' + digit as char else '?'
    else if digit < 10 then '0' + digit as char else '?'
  }

  function DigitOf(c: char, radix: nat): nat
  {
    var n := c as int;
    if radix == 26 && 'A' <= c <= 'Z' then n - 'A' as int
    else if radix == 10 && '0' <= c <= '9' then n - '0' as int
    else 0
  }

  ghost function Print(digits: seq<nat>, radices: seq<pos>): string
    requires |digits| == |radices|
  {
    seq(|digits|, i requires 0 <= i < |digits| => Symbol(digits[i], radices[i]))
  }

  ghost function Read(s: string, radices: seq<pos>): seq<nat>
    requires |s| == |radices|
  {
    seq(|s|, i requires 0 <= i < |s| => DigitOf(s[i], radices[i]))
  }

  /** True of the symbol a position of the code may hold. */
  predicate SymbolOf(c: char, radix: nat)
  {
    if radix == 26 then 'A' <= c <= 'Z' else '0' <= c <= '9'
  }

  /** Exactly the canonical form: three letters, four digits, three letters, four digits. */
  predicate Valid(s: string)
  {
    Spells(s, Radices())
  }

  /** The address printed for a digest's number. */
  ghost function Address(n: nat): string
  {
    Print(Digits(n, Radices()), Radices())
  }

  /** The number an address spells. */
  ghost function Decode(address: string): nat
  {
    if Valid(address) then Value(Read(address, Radices()), Radices()) else 0
  }

  ghost function Power(r: pos, n: nat): pos
  {
    if n == 0 then 1 else Times(r, Power(r, n - 1))
  }

  ghost function Repeated(r: pos, n: nat): (s: seq<pos>)
    ensures |s| == n && forall i :: 0 <= i < n ==> s[i] == r
  {
    seq(n, i => r)
  }

  lemma {:induction false} ProductOfRepeated(r: pos, n: nat, rest: seq<pos>)
    ensures Product(Repeated(r, n) + rest) == Power(r, n) * Product(rest)
  {
    if n == 0 {
      assert Repeated(r, 0) + rest == rest;
    } else {
      ProductOfRepeated(r, n - 1, rest);
      assert (Repeated(r, n) + rest)[1..] == Repeated(r, n - 1) + rest;
      assert r * (Power(r, n - 1) * Product(rest)) == r * Power(r, n - 1) * Product(rest);
    }
  }

  lemma LettersThenDigits(rest: seq<pos>)
    ensures Product(Repeated(26, 3) + Repeated(10, 4) + rest) == 175760000 * Product(rest)
  {
    ProductOfRepeated(26, 3, Repeated(10, 4) + rest);
    ProductOfRepeated(10, 4, rest);
    assert Repeated(26, 3) + Repeated(10, 4) + rest == Repeated(26, 3) + (Repeated(10, 4) + rest);
    assert Power(26, 3) == 17576 && Power(10, 4) == 10000;
  }

  lemma SpaceIsTheProduct()
    ensures Product(Radices()) == SPACE
  {
    var r := Repeated(26, 3) + Repeated(10, 4);
    LettersThenDigits(r);
    LettersThenDigits([]);
    assert r + [] == r && Radices() == r + r;
  }

  /** True of a text with the symbol each radix asks for. */
  predicate Spells(s: string, radices: seq<pos>)
  {
    |s| == |radices| && forall i :: 0 <= i < |s| ==> SymbolOf(s[i], radices[i])
  }

  predicate Coding(radices: seq<pos>)
  {
    forall i :: 0 <= i < |radices| ==> radices[i] == 26 || radices[i] == 10
  }

  lemma ReadPrint(digits: seq<nat>, radices: seq<pos>)
    requires Fits(digits, radices) && Coding(radices)
    ensures Spells(Print(digits, radices), radices) && Read(Print(digits, radices), radices) == digits
  {}

  lemma PrintRead(s: string, radices: seq<pos>)
    requires Spells(s, radices) && Coding(radices)
    ensures Fits(Read(s, radices), radices) && Print(Read(s, radices), radices) == s
  {}

  /** For any such radices: what is printed for a number reads as its remainder. */
  lemma ReadsAsRemainder(n: nat, radices: seq<pos>)
    requires Coding(radices)
    ensures var s := Print(Digits(n, radices), radices);
            Spells(s, radices) && Value(Read(s, radices), radices) == Remainder(n, Product(radices))
  {
    ReadPrint(Digits(n, radices), radices);
    DigitsSpell(n, radices);
  }

  /** ... and a text is printed for the number it reads as. */
  lemma PrintedForWhatItReads(s: string, radices: seq<pos>)
    requires Coding(radices) && Spells(s, radices)
    ensures var n := Value(Read(s, radices), radices);
            n < Product(radices) && Print(Digits(n, radices), radices) == s
  {
    PrintRead(s, radices);
    SpelledDigits(Read(s, radices), radices);
  }

  lemma RemainderBySpace(n: nat, radices: seq<pos>)
    requires radices == Radices()
    ensures Remainder(n, Product(radices)) == Remainder(n, SPACE)
  {
    SpaceIsTheProduct();
  }

  lemma AddressReadsAsRemainder(n: nat, radices: seq<pos>)
    requires radices == Radices()
    ensures Valid(Address(n)) && Decode(Address(n)) == Remainder(n, Product(radices))
  {
    ReadsAsRemainder(n, radices);
    assert Spells(Address(n), radices);
  }

  /** An address decodes to its number's remainder, and is valid. */
  lemma DecodeAddress(n: nat)
    ensures Valid(Address(n)) && Decode(Address(n)) == Remainder(n, SPACE)
  {
    AddressReadsAsRemainder(n, Radices());
    RemainderBySpace(n, Radices());
  }

  /** Every valid address is printed for the number it decodes to, which is below the size of the code. */
  lemma AddressOfDecode(a: string)
    requires Valid(a)
    ensures Decode(a) < SPACE && Address(Decode(a)) == a
  {
    PrintedForWhatItReads(a, Radices());
    SpaceIsTheProduct();
  }

  lemma AddressOfRemainder(n: nat)
    ensures Address(Remainder(n, SPACE)) == Address(n)
  {
    DecodeAddress(n);
    AddressOfDecode(Address(n));
  }

  lemma AddressesCodeRemainders()
    ensures CodesRemainders(Address, Decode, SPACE)
  {
    forall n: nat ensures Decode(Address(n)) == Remainder(n, SPACE) && Address(Remainder(n, SPACE)) == Address(n) {
      DecodeAddress(n);
      AddressOfRemainder(n);
    }
  }

  /** Two numbers print one address exactly when they leave one remainder. */
  lemma SameAddressIffSameRemainder(m: nat, n: nat)
    ensures Address(m) == Address(n) <==> Remainder(m, SPACE) == Remainder(n, SPACE)
  {
    AddressesCodeRemainders();
    SameCodeIffSameRemainder(Address, Decode, SPACE, m, n);
  }

  /** Printing is injective below the size of the code. */
  lemma PrintingIsInjective(m: nat, n: nat)
    requires m < SPACE && n < SPACE
    ensures Address(m) == Address(n) <==> m == n
  {
    SameAddressIffSameRemainder(m, n);
    DivModUnique(m, SPACE, 0, m);
    DivModUnique(n, SPACE, 0, n);
  }

  // ---------------------------------------------------------------- the modulo bias

  /** The digests that print an address. */
  ghost function Preimages(a: string): set<nat>
  {
    Coded(Address, a, DIGESTS)
  }

  /** Every valid address is printed for one of two numbers of digests, which differ by one: the whole modulo bias. */
  lemma ModuloBias(a: string)
    requires Valid(a)
    ensures |Preimages(a)| == DIGESTS / SPACE + if Decode(a) < DIGESTS % SPACE then 1 else 0
  {
    AddressOfDecode(a);
    AddressesCodeRemainders();
    CountCoded(Address, Decode, SPACE, Decode(a), DIGESTS);
  }

  // ---------------------------------------------------------------- the emitters

  ghost function Printed(n: nat, radices: seq<pos>): string
  {
    Print(Digits(n, radices), radices)
  }

  lemma PrintConcat(d: seq<nat>, r: seq<pos>, e: seq<nat>, t: seq<pos>)
    requires |d| == |r| && |e| == |t|
    ensures Print(d + e, r + t) == Print(d, r) + Print(e, t)
  {}

  lemma PrintedConcat(n: nat, r: seq<pos>, t: seq<pos>)
    ensures Printed(n, r + t) == Printed(n, r) + Printed(Rest(n, r), t)
    ensures Rest(n, r + t) == Rest(Rest(n, r), t)
  {
    DigitsConcat(n, r, t);
    PrintConcat(Digits(n, r), r, Digits(Rest(n, r), t), t);
  }

  lemma PrintedOne(n: nat, radix: nat)
    requires radix == 26 || radix == 10
    ensures Printed(n, [radix]) == [Symbol(n % radix, radix)] && Rest(n, [radix]) == n / radix
  {
    assert Digits(n, [radix]) == [n % radix] + Digits(n / radix, [radix][1..]);
  }

  ghost function Letters(): seq<pos> { seq(LETTER_RUN, i => 26) }

  ghost function Figures(): seq<pos> { seq(DIGIT_RUN, i => 10) }

  method EmitAddressLetters(built: string, number: nat) returns (b: string, n: nat)
    ensures b == built + Printed(number, Letters()) && n == Rest(number, Letters())
  {
    b, n := built, number;
    for i := 0 to LETTER_RUN
      invariant b == built + Printed(number, Letters()[..i]) && n == Rest(number, Letters()[..i])
    {
      assert Letters()[..i + 1] == Letters()[..i] + [26];
      PrintedConcat(number, Letters()[..i], [26]);
      PrintedOne(n, 26);
      b := b + [Symbol(n % 26, 26)];
      n := n / 26;
    }
    assert Letters()[..LETTER_RUN] == Letters();
  }

  method EmitAddressDigits(built: string, number: nat) returns (b: string, n: nat)
    ensures b == built + Printed(number, Figures()) && n == Rest(number, Figures())
  {
    b, n := built, number;
    for i := 0 to DIGIT_RUN
      invariant b == built + Printed(number, Figures()[..i]) && n == Rest(number, Figures()[..i])
    {
      assert Figures()[..i + 1] == Figures()[..i] + [10];
      PrintedConcat(number, Figures()[..i], [10]);
      PrintedOne(n, 10);
      b := b + [Symbol(n % 10, 10)];
      n := n / 10;
    }
    assert Figures()[..DIGIT_RUN] == Figures();
  }

  lemma RunsMakeTheRadices(done: seq<pos>)
    requires done == Letters() + Figures() + Letters() + Figures()
    ensures done == Radices()
  {}

  lemma AddressIsPrinted(n: nat, done: seq<pos>)
    requires done == Radices()
    ensures Address(n) == Printed(n, done)
  {}

  /** Derives an address from a published key and the number its digest makes; a blank key has none. */
  method AddressDerive(publicKey: string, digest: nat) returns (address: Option<string>)
    ensures Blank(publicKey) ==> address == None
    ensures !Blank(publicKey) ==> address == Some(Address(digest))
  {
    if Blank(publicKey) { return None; }
    ghost var runs := Letters() + Figures();
    var b, n := EmitAddressLetters("", digest);
    assert b == Printed(digest, Letters());
    b, n := EmitAddressDigits(b, n);
    PrintedConcat(digest, Letters(), Figures());
    b, n := EmitAddressLetters(b, n);
    PrintedConcat(digest, runs, Letters());
    b, n := EmitAddressDigits(b, n);
    PrintedConcat(digest, runs + Letters(), Figures());
    RunsMakeTheRadices(runs + Letters() + Figures());
    AddressIsPrinted(digest, runs + Letters() + Figures());
    address := Some(b);
  }

  // ---------------------------------------------------------------- the normaliser

  predicate Separator(c: char)
  {
    c == ' ' || c == '-' || c == '\t' || c == '_'
  }

  /** What one typed character contributes: nothing, its upper case, or itself. */
  function Typed(c: char): string
  {
    if Separator(c) then [] else if 'a' <= c <= 'z' then [c - 32 as char] else [c]
  }

  function Canon(s: string): string
  {
    Rewrite(Typed, s)
  }

  function Normalized(s: string): Option<string>
  {
    if Valid(Canon(s)) then Some(Canon(s)) else None
  }

  /** Four scans, each with its own early return. */
  method AddressValid(s: string) returns (ok: bool)
    ensures ok <==> Valid(s)
  {
    if |s| != 2 * LETTER_RUN + 2 * DIGIT_RUN { return false; }
    for i := 0 to LETTER_RUN
      invariant forall k :: 0 <= k < i ==> SymbolOf(s[k], Radices()[k])
    {
      if !('A' <= s[i] <= 'Z') { assert !SymbolOf(s[i], Radices()[i]); return false; }
    }
    for i := LETTER_RUN to LETTER_RUN + DIGIT_RUN
      invariant forall k :: 0 <= k < i ==> SymbolOf(s[k], Radices()[k])
    {
      if !('0' <= s[i] <= '9') { assert !SymbolOf(s[i], Radices()[i]); return false; }
    }
    for i := LETTER_RUN + DIGIT_RUN to 2 * LETTER_RUN + DIGIT_RUN
      invariant forall k :: 0 <= k < i ==> SymbolOf(s[k], Radices()[k])
    {
      if !('A' <= s[i] <= 'Z') { assert !SymbolOf(s[i], Radices()[i]); return false; }
    }
    for i := 2 * LETTER_RUN + DIGIT_RUN to |s|
      invariant forall k :: 0 <= k < i ==> SymbolOf(s[k], Radices()[k])
    {
      if !('0' <= s[i] <= '9') { assert !SymbolOf(s[i], Radices()[i]); return false; }
    }
    ok := true;
  }

  method AddressNormalize(s: string) returns (out: Option<string>)
    ensures out == Normalized(s)
  {
    var b := [];
    for i := 0 to |s|
      invariant b == Canon(s[..i])
    {
      assert s[..i + 1] == s[..i] + [s[i]];
      RewriteAppend(Typed, s[..i], s[i]);
      if Separator(s[i]) {
      } else if 'a' <= s[i] <= 'z' {
        b := b + [s[i] - 32 as char];
      } else {
        b := b + [s[i]];
      }
    }
    assert s[..|s|] == s;
    var ok := AddressValid(b);
    out := if ok then Some(b) else None;
  }

  /** The canonical form grouped for display; anything else as it is. */
  function Format(s: string): string
  {
    if !Valid(s) then s else s[..3] + " " + s[3..7] + " " + s[7..10] + " " + s[10..]
  }

  lemma CanonOfValid(a: string)
    requires Valid(a)
    ensures Canon(a) == a
  {
    forall i | 0 <= i < |a| ensures Typed(a[i]) == [a[i]] {
      assert SymbolOf(a[i], Radices()[i]);
    }
    RewriteFixed(Typed, a);
  }

  lemma CanonOfFormat(a: string)
    requires Valid(a)
    ensures Canon(Format(a)) == a
  {
    RewriteGrouped(Typed, a[..3], a[3..7], a[7..10], a[10..], ' ');
    assert a == a[..3] + a[3..7] + a[7..10] + a[10..];
    CanonOfValid(a);
  }

  /** Normalising a formatted address gives it back. */
  lemma NormalizeFormat(a: string)
    requires Valid(a)
    ensures Normalized(Format(a)) == Some(a)
  {
    CanonOfFormat(a);
  }

  /** Normalising again changes nothing. */
  lemma NormalizeTwice(s: string)
    requires Normalized(s).Some?
    ensures Normalized(Normalized(s).value) == Normalized(s)
  {
    CanonOfValid(Canon(s));
  }

  /** A separator typed anywhere, and the case of any letter, make no difference. */
  lemma TypingMakesNoDifference(before: string, c: char, after: string)
    ensures Separator(c) ==> Normalized(before + [c] + after) == Normalized(before + after)
    ensures 'a' <= c <= 'z' ==> Normalized(before + [c] + after) == Normalized(before + [c - 32 as char] + after)
  {
    if Separator(c) {
      RewriteSkip(Typed, before, c, after);
    } else if 'a' <= c <= 'z' {
      RewriteBetween(Typed, before, c, after);
      RewriteBetween(Typed, before, c - 32 as char, after);
    }
  }

  // ---------------------------------------------------------------- the directory's search

  predicate Searchable(c: char)
  {
    Separator(c) || 'a' <= c <= 'z' || 'A' <= c <= 'Z' || '0' <= c <= '9'
  }

  /** The search term as an address fragment, or "" when it holds a character no address does. */
  method AddressSearch(search: string) returns (fragment: string)
    ensures (forall i :: 0 <= i < |search| ==> Searchable(search[i])) ==> fragment == Canon(search)
    ensures (exists i :: 0 <= i < |search| && !Searchable(search[i])) ==> fragment == ""
  {
    fragment := "";
    for i := 0 to |search|
      invariant fragment == Canon(search[..i])
      invariant forall k :: 0 <= k < i ==> Searchable(search[k])
    {
      var c := search[i];
      assert search[..i + 1] == search[..i] + [c];
      RewriteAppend(Typed, search[..i], c);
      if Separator(c) {
      } else if 'a' <= c <= 'z' {
        fragment := fragment + [c - 32 as char];
      } else if 'A' <= c <= 'Z' || '0' <= c <= '9' {
        fragment := fragment + [c];
      } else {
        return "";
      }
    }
    assert search[..|search|] == search;
  }

  lemma CanonInPieces(s: string, i: nat, j: nat)
    requires i <= j <= |s|
    ensures Canon(s) == Canon(s[..i]) + Canon(s[i..j]) + Canon(s[j..])
  {
    RewritePieces(Typed, s[..i], s[i..j], s[j..]);
    assert s == s[..i] + s[i..j] + s[j..];
  }

  /** Any contiguous piece of a formatted address searches for a contiguous piece of the address. */
  lemma FragmentIsFound(a: string, i: nat, j: nat)
    requires Valid(a) && i <= j <= |Format(a)|
    ensures forall k :: i <= k < j ==> Searchable(Format(a)[k])
    ensures a == Canon(Format(a)[..i]) + Canon(Format(a)[i..j]) + Canon(Format(a)[j..])
  {
    FormatIsSearchable(a);
    CanonOfFormat(a);
    CanonInPieces(Format(a), i, j);
  }

  lemma FormatIsSearchable(a: string)
    requires Valid(a)
    ensures forall k :: 0 <= k < |Format(a)| ==> Searchable(Format(a)[k])
  {
    forall m | 0 <= m < |a| ensures Searchable(a[m]) {
      assert SymbolOf(a[m], Radices()[m]);
    }
  }
}
