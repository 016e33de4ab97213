/** Texts rewritten one character at a time. */
module Rewriting {

  function Rewrite(f: char -> string, s: string): string
  {
    if s == [] then [] else Rewrite(f, s[..|s| - 1]) + f(s[|s| - 1])
  }

  lemma RewriteAppend(f: char -> string, s: string, c: char)
    ensures Rewrite(f, s + [c]) == Rewrite(f, s) + f(c)
  {
    assert (s + [c])[..|s|] == s;
  }

  lemma {:induction false} RewriteConcat(f: char -> string, s: string, t: string)
    ensures Rewrite(f, s + t) == Rewrite(f, s) + Rewrite(f, t)
    decreases |t|
  {
    if t == [] {
      assert s + t == s;
    } else {
      var t', c := t[..|t| - 1], t[|t| - 1];
      assert t == t' + [c] && s + t == s + t' + [c];
      RewriteAppend(f, s + t', c);
      RewriteConcat(f, s, t');
    }
  }

  lemma {:induction false} RewriteFixed(f: char -> string, s: string)
    requires forall i :: 0 <= i < |s| ==> f(s[i]) == [s[i]]
    ensures Rewrite(f, s) == s
    decreases |s|
  {
    if s != [] { RewriteFixed(f, s[..|s| - 1]); }
  }

  lemma RewriteBetween(f: char -> string, before: string, c: char, after: string)
    ensures Rewrite(f, before + [c] + after) == Rewrite(f, before) + f(c) + Rewrite(f, after)
  {
    RewriteConcat(f, before + [c], after);
    RewriteAppend(f, before, c);
  }

  lemma RewriteSkip(f: char -> string, before: string, c: char, after: string)
    requires f(c) == []
    ensures Rewrite(f, before + [c] + after) == Rewrite(f, before + after)
  {
    RewriteBetween(f, before, c, after);
    RewriteConcat(f, before, after);
    assert Rewrite(f, before) + [] == Rewrite(f, before);
  }

  lemma RewritePieces(f: char -> string, p: string, q: string, r: string)
    ensures Rewrite(f, p + q + r) == Rewrite(f, p) + Rewrite(f, q) + Rewrite(f, r)
  {
    RewriteConcat(f, p + q, r);
    RewriteConcat(f, p, q);
  }

  /** Characters rewritten to nothing may stand between groups. */
  lemma RewriteGrouped(f: char -> string, p: string, q: string, r: string, t: string, c: char)
    requires f(c) == []
    ensures Rewrite(f, p + [c] + q + [c] + r + [c] + t) == Rewrite(f, p + q + r + t)
  {
    RewriteSkip(f, p + [c] + q + [c] + r, c, t);
    var s := r + t;
    assert p + [c] + q + [c] + r + t == p + [c] + q + [c] + s;
    RewriteSkip(f, p + [c] + q, c, s);
    assert p + [c] + q + s == p + [c] + (q + s);
    RewriteSkip(f, p, c, q + s);
    assert p + (q + s) == p + q + r + t;
  }
}
