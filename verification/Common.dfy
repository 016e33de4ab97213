/** Shared vocabulary: optional values, instants, white space and counting. */
module Common {

  /** A nullable column, a missing row, or an absent pointer. */
  datatype Option<+T> = None | Some(value: T)

  /** An instant, in nanoseconds. `stamp` is order preserving and injective, so a stored stamp is its instant. */
  type Instant = int

  /** The White_Space characters of Unicode: what `strings.TrimSpace` trims and `strings.Fields` splits on. */
  predicate IsSpace(c: char)
  {
    var n := c as int;
    || 0x09 <= n <= 0x0D || n == 0x20 || n == 0x85 || n == 0xA0 || n == 0x1680
    || 0x2000 <= n <= 0x200A || n == 0x2028 || n == 0x2029 || n == 0x202F || n == 0x205F || n == 0x3000
  }

  /** True of a text that `strings.TrimSpace` leaves empty. */
  predicate Blank(s: string)
  {
    forall i :: 0 <= i < |s| ==> IsSpace(s[i])
  }

  function TrimLeft(s: string): string
  {
    if s == [] || !IsSpace(s[0]) then s else TrimLeft(s[1..])
  }

  function TrimRight(s: string): string
  {
    if s == [] || !IsSpace(s[|s| - 1]) then s else TrimRight(s[..|s| - 1])
  }

  /** `strings.TrimSpace`: what is left without the white space at either end. */
  function TrimSpace(s: string): string
  {
    TrimRight(TrimLeft(s))
  }

  lemma {:induction false} TrimLeftTrims(s: string) returns (before: string)
    ensures s == before + TrimLeft(s) && Blank(before)
    ensures TrimLeft(s) != [] ==> !IsSpace(TrimLeft(s)[0])
  {
    before := [];
    if s != [] && IsSpace(s[0]) {
      var rest := TrimLeftTrims(s[1..]);
      before := [s[0]] + rest;
      assert s == [s[0]] + s[1..];
    }
  }

  lemma {:induction false} TrimRightTrims(s: string) returns (after: string)
    ensures s == TrimRight(s) + after && Blank(after)
    ensures TrimRight(s) != [] ==> !IsSpace(TrimRight(s)[|TrimRight(s)| - 1])
  {
    after := [];
    if s != [] && IsSpace(s[|s| - 1]) {
      var rest := TrimRightTrims(s[..|s| - 1]);
      after := rest + [s[|s| - 1]];
      assert s == s[..|s| - 1] + [s[|s| - 1]];
    }
  }

  /** White space goes at both ends and nothing else goes. */
  lemma TrimSpaceTrims(s: string) returns (before: string, after: string)
    ensures s == before + TrimSpace(s) + after && Blank(before) && Blank(after)
    ensures var r := TrimSpace(s); r != [] ==> !IsSpace(r[0]) && !IsSpace(r[|r| - 1])
  {
    before := TrimLeftTrims(s);
    after := TrimRightTrims(TrimLeft(s));
  }

  /** How many elements of `s` satisfy `p`. */
  ghost function Count<T>(s: seq<T>, p: T -> bool): nat
  {
    if s == [] then 0 else Count(s[..|s| - 1], p) + if p(s[|s| - 1]) then 1 else 0
  }

  lemma CountAppend<T>(s: seq<T>, x: T, p: T -> bool)
    ensures Count(s + [x], p) == Count(s, p) + if p(x) then 1 else 0
  {
    assert (s + [x])[..|s|] == s;
  }

  lemma {:induction false} NoneCounted<T>(s: seq<T>, p: T -> bool)
    requires forall x :: x in s ==> !p(x)
    ensures Count(s, p) == 0
    decreases |s|
  {
    if s != [] { NoneCounted(s[..|s| - 1], p); }
  }

  lemma {:induction false} SomeCounted<T>(s: seq<T>, p: T -> bool, x: T)
    requires x in s && p(x)
    ensures Count(s, p) > 0
    decreases |s|
  {
    if x != s[|s| - 1] { SomeCounted(s[..|s| - 1], p, x); }
  }

  lemma {:induction false} CountMonotone<T>(s: seq<T>, p: T -> bool, q: T -> bool)
    requires forall x :: x in s && p(x) ==> q(x)
    ensures Count(s, p) <= Count(s, q)
    decreases |s|
  {
    if s != [] { CountMonotone(s[..|s| - 1], p, q); }
  }

  lemma CountAgrees<T>(s: seq<T>, p: T -> bool, q: T -> bool)
    requires forall x :: x in s ==> p(x) == q(x)
    ensures Count(s, p) == Count(s, q)
  {
    CountMonotone(s, p, q);
    CountMonotone(s, q, p);
  }
}
