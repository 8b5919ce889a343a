/** What bcrypt makes of a password. A character stands for a byte. */
module Passwords {

  const NUL: char := '\0'

  /** `n` characters of `word` written over and over. */
  function Cycle(word: string, n: nat): (r: string)
    requires word != ""
    ensures |r| == n
  {
    if n <= |word| then word[..n] else word + Cycle(word, n - |word|)
  }

  /** The 72 bytes that key the cipher: the password and a closing NUL, over and over. */
  function BcryptKey(password: string): (key: string)
    ensures |key| == 72
  {
    Cycle(password + [NUL], 72)
  }

  ghost predicate NulFree(p: string)
  {
    forall i :: 0 <= i < |p| ==> p[i] != NUL
  }

  /** Where the key is still in its first turn, it is the password and the NUL. */
  lemma FirstTurn(p: string, i: nat)
    requires i < 72 && i <= |p|
    ensures BcryptKey(p)[i] == (p + [NUL])[i]
  {
  }

  /** Passwords without a NUL share a key exactly when they are equal, or both fill it and
      begin alike. */
  lemma SameKeyIff(p: string, q: string)
    requires NulFree(p) && NulFree(q)
    ensures BcryptKey(p) == BcryptKey(q) <==> p == q || (|p| >= 72 && |q| >= 72 && p[..72] == q[..72])
  {
    if |p| >= 72 && |q| >= 72 {
      FullKey(p);
      FullKey(q);
    } else if BcryptKey(p) == BcryptKey(q) {
      if |p| <= |q| { ShortKey(p, q); } else { ShortKey(q, p); }
    }
  }

  lemma FullKey(p: string)
    requires |p| >= 72
    ensures BcryptKey(p) == p[..72]
  {
    forall i: nat | i < 72 ensures BcryptKey(p)[i] == p[..72][i] { FirstTurn(p, i); }
  }

  /** The closing NUL tells where a short password ends. */
  lemma ShortKey(p: string, q: string)
    requires NulFree(p) && NulFree(q) && |p| <= |q| && |p| < 72 && BcryptKey(p) == BcryptKey(q)
    ensures p == q
  {
    FirstTurn(p, |p|);
    FirstTurn(q, |p|);
    assert |p| == |q|;
    forall i: nat | i < |p| ensures p[i] == q[i] {
      FirstTurn(p, i);
      FirstTurn(q, i);
    }
  }

  /** A password of 72 characters, the most registration takes, opens for whatever is
      appended to it. */
  lemma LongestOpensForMore(p: string, more: string)
    requires |p| == 72
    ensures BcryptKey(p + more) == BcryptKey(p)
  {
    FullKey(p);
    FullKey(p + more);
  }

  /** So does any password for itself said twice with a NUL between. */
  lemma OpensForItselfTwice(p: string)
    ensures BcryptKey(p + [NUL] + p) == BcryptKey(p)
  {
    var word := p + [NUL];
    assert p + [NUL] + p + [NUL] == word + word;
    CycleTwice(word, 72);
  }

  lemma {:induction false} CycleTwice(word: string, n: nat)
    requires word != ""
    ensures Cycle(word + word, n) == Cycle(word, n)
    decreases n
  {
    var m := |word|;
    if n <= 2 * m {
      if n > m { assert (word + word)[..n] == word + word[..n - m]; }
    } else {
      CycleTwice(word, n - 2 * m);
      assert Cycle(word, n) == word + (word + Cycle(word, n - 2 * m));
      assert (word + word) + Cycle(word, n - 2 * m) == word + (word + Cycle(word, n - 2 * m));
    }
  }
}
