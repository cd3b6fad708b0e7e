/** NUL-terminated strings in character arrays. */
module CStrings {
  /** The array holds the C string `text`: its characters and then a NUL. */
  ghost predicate Holds(b: seq<char>, text: string) {
    && |text| < |b|
    && b[..|text|] == text
    && b[|text|] == '\0'
    && '\0' !in text
  }

  lemma NoNulInside(b: seq<char>, text: string)
    requires Holds(b, text)
    ensures forall i :: 0 <= i < |text| ==> b[i] == text[i] && b[i] != '\0'
  {
  }

  lemma HoldsBuilt(b: seq<char>, text: string, rest: string)
    requires b == text + rest && rest != "" && rest[0] == '\0' && '\0' !in text
    ensures Holds(b, text)
  {
  }

  method Strlen(b: array<char>, ghost text: string) returns (n: nat)
    requires Holds(b[..], text)
    ensures n == |text|
  {
    NoNulInside(b[..], text);
    assert forall i :: 0 <= i < |text| ==> b[i] == b[..][i];
    n := 0;
    while b[n] != '\0'
      invariant n <= |text|
      decreases |text| - n
    {
      assert b[..][|text|] == '\0';
      n := n + 1;
    }
  }

  method ReadString(b: array<char>, ghost text: string) returns (s: string)
    requires Holds(b[..], text)
    ensures s == text
  {
    var n := Strlen(b, text);
    s := b[..n];
  }

  /** Copies the characters of `s` to position `at`; nothing else changes. */
  method CopyChars(b: array<char>, at: nat, s: string)
    requires at + |s| <= b.Length
    modifies b
    ensures b[..] == old(b[..at]) + s + old(b[at + |s|..])
  {
    ghost var was := b[..];
    var i := 0;
    while i < |s|
      invariant 0 <= i <= |s|
      invariant b[..] == was[..at] + s[..i] + was[at + i..]
    {
      b[at + i] := s[i];
      i := i + 1;
    }
    assert s[..i] == s;
  }

  /** A C string with its terminator. */
  type Text = s: seq<char> | s != [] && s[|s| - 1] == '\0' && forall i :: 0 <= i < |s| - 1 ==> s[i] != '\0'
    witness ['\0']

  // ----- occurrence of a string at a position -----

  predicate Occurs(s: Text, p: nat, t: string) {
    p + |t| < |s| && s[p..p + |t|] == t
  }

  lemma OccursSplit(s: Text, p: nat, a: string, b: string)
    ensures Occurs(s, p, a + b) <==> Occurs(s, p, a) && Occurs(s, p + |a|, b)
  {
    if p + |a| + |b| < |s| {
      var w := s[p..p + |a + b|];
      assert w[..|a|] == s[p..p + |a|] && w[|a|..] == s[p + |a|..p + |a| + |b|];
      assert (a + b)[..|a|] == a && (a + b)[|a|..] == b;
      assert w == w[..|a|] + w[|a|..];
    }
  }

  lemma OccursNothing(s: Text, p: nat)
    requires p < |s|
    ensures Occurs(s, p, "")
  {
  }

  lemma OccursInside(s: Text, p: nat, t: string)
    requires Occurs(s, p, t)
    ensures p + |t| < |s|
  {
  }

  lemma OccursAt(s: Text, p: nat, t: string, i: nat)
    requires Occurs(s, p, t) && i < |t|
    ensures s[p + i] == t[i]
  {
  }

  lemma SliceSnoc(s: seq<char>, p: nat, q: nat)
    requires p <= q < |s|
    ensures s[p..q + 1] == s[p..q] + [s[q]]
  {
  }
}
