/** String helpers with JavaScript's meaning: the `\s` class, `trim()`,
    prefix and suffix tests. Strings are sequences of characters. */
module Texto {

  /** JavaScript's `\s`: white space and line terminators. */
  predicate IsEspaco(c: char) {
    || c == ' ' || c == '\t' || c == '\n' || c == '\r' || c == '\U{000B}' || c == '\U{000C}'
    || c == '\U{00A0}' || c == '\U{1680}' || ('\U{2000}' <= c <= '\U{200A}')
    || c == '\U{2028}' || c == '\U{2029}' || c == '\U{202F}' || c == '\U{205F}'
    || c == '\U{3000}' || c == '\U{FEFF}'
  }

  /** JavaScript's line terminators: the characters `.` does not match. */
  predicate IsTerminador(c: char) {
    c == '\n' || c == '\r' || c == '\U{2028}' || c == '\U{2029}'
  }

  predicate TodosEspacos(s: string) {
    forall i | 0 <= i < |s| :: IsEspaco(s[i])
  }

  predicate SemTerminador(s: string) {
    forall i | 0 <= i < |s| :: !IsTerminador(s[i])
  }

  predicate EndsWith(s: string, sufixo: string) {
    |sufixo| <= |s| && s[|s| - |sufixo|..] == sufixo
  }

  /** `s` without its trailing white space. */
  function TrimEnd(s: string): (r: string)
    ensures r <= s
    ensures TodosEspacos(s[|r|..])
    ensures |r| == 0 || !IsEspaco(r[|r| - 1])
  {
    if |s| > 0 && IsEspaco(s[|s| - 1]) then
      var r := TrimEnd(s[..|s| - 1]);
      assert s[|r|..] == s[..|s| - 1][|r|..] + [s[|s| - 1]];
      r
    else s
  }

  /** `s` without its leading white space. */
  function TrimStart(s: string): (r: string)
    ensures |r| <= |s| && r == s[|s| - |r|..]
    ensures TodosEspacos(s[..|s| - |r|])
    ensures |r| == 0 || !IsEspaco(r[0])
  {
    if |s| > 0 && IsEspaco(s[0]) then
      var r := TrimStart(s[1..]);
      assert s[..|s| - |r|] == [s[0]] + s[1..][..|s[1..]| - |r|];
      r
    else s
  }

  /** JavaScript's `String.prototype.trim`. */
  function Trim(s: string): string {
    TrimStart(TrimEnd(s))
  }

  /** A string is blank after trimming iff it is made of white space only. */
  lemma TrimVazioSeEspacos(s: string)
    ensures |Trim(s)| == 0 <==> TodosEspacos(s)
  {
    var e := TrimEnd(s);
    if |Trim(s)| == 0 {
      assert TodosEspacos(e[..|e|]);
      assert e[..|e|] == e;
      assert |e| == 0;
      assert s[|e|..] == s;
    } else if |e| > 0 {
      assert s[|e| - 1] == e[|e| - 1];
    }
  }

  /** Trailing white space is what TrimEnd removes, and nothing more: any
      split of `s` into a part that does not end in white space and a white
      space tail is the split TrimEnd finds. */
  lemma {:induction false} TrimEndUnico(p: string, w: string)
    requires TodosEspacos(w)
    requires |p| == 0 || !IsEspaco(p[|p| - 1])
    ensures TrimEnd(p + w) == p
    decreases |w|
  {
    if |w| == 0 {
      assert p + w == p;
    } else {
      var s := p + w;
      assert s[|s| - 1] == w[|w| - 1];
      assert s[..|s| - 1] == p + w[..|w| - 1];
      TrimEndUnico(p, w[..|w| - 1]);
    }
  }

  /** The same, for a split given by position. */
  lemma TrimEndEm(s: string, n: nat)
    requires 0 < n <= |s|
    requires !IsEspaco(s[n - 1])
    requires TodosEspacos(s[n..])
    ensures TrimEnd(s) == s[..n]
  {
    assert s == s[..n] + s[n..];
    TrimEndUnico(s[..n], s[n..]);
  }

  /** `a` comes no later than `b` in code-point lexicographic order: the
      order `localeCompare` is read as in this model. */
  predicate Precede(a: string, b: string) {
    |a| == 0 || (|b| > 0 && (a[0] < b[0] || (a[0] == b[0] && Precede(a[1..], b[1..]))))
  }

  lemma {:induction false} PrecedeReflexivo(a: string)
    ensures Precede(a, a)
    decreases |a|
  {
    if |a| > 0 {
      PrecedeReflexivo(a[1..]);
    }
  }

  lemma {:induction false} PrecedeTotal(a: string, b: string)
    ensures Precede(a, b) || Precede(b, a)
    decreases |a|
  {
    if |a| > 0 && |b| > 0 && a[0] == b[0] {
      PrecedeTotal(a[1..], b[1..]);
    }
  }

  lemma {:induction false} PrecedeTransitivo(a: string, b: string, c: string)
    requires Precede(a, b) && Precede(b, c)
    ensures Precede(a, c)
    decreases |a|
  {
    if |a| > 0 && a[0] == b[0] && b[0] == c[0] {
      PrecedeTransitivo(a[1..], b[1..], c[1..]);
    }
  }

  /** Only equal strings precede each other both ways. */
  lemma {:induction false} PrecedeAntissimetrico(a: string, b: string)
    requires Precede(a, b) && Precede(b, a)
    ensures a == b
    decreases |a|
  {
    if |a| > 0 {
      PrecedeAntissimetrico(a[1..], b[1..]);
      assert a == [a[0]] + a[1..] && b == [b[0]] + b[1..];
    }
  }
}
