/** Byte strings: trimming and their order. */
module Text {
  import opened Ordering
  import opened Conditions

  predicate Blank(c: char) {
    c == ' ' || c == '\t' || c == '\n' || c == '\r' || c == 11 as char || c == 12 as char
  }

  function TrimLeft(s: string): string {
    if s != [] && Blank(s[0]) then TrimLeft(s[1..]) else s
  }

  function TrimRight(s: string): string {
    if s != [] && Blank(s[|s| - 1]) then TrimRight(s[..|s| - 1]) else s
  }

  /** `strings.TrimSpace` on ASCII text. */
  function Trim(s: string): string {
    TrimRight(TrimLeft(s))
  }

  /** The ASCII blanks: the space, and the five controls from tab to carriage return. */
  lemma BlankCodes(c: char)
    ensures Blank(c) <==> c as int == 32 || 9 <= c as int <= 13
  {
  }

  lemma {:induction false} TrimLeftCuts(s: string)
    ensures |TrimLeft(s)| <= |s| && TrimLeft(s) == s[|s| - |TrimLeft(s)|..]
    ensures forall i :: 0 <= i < |s| - |TrimLeft(s)| ==> Blank(s[i])
    ensures TrimLeft(s) != [] ==> !Blank(TrimLeft(s)[0])
  {
    if s != [] && Blank(s[0]) {
      TrimLeftCuts(s[1..]);
      var cut := |s| - |TrimLeft(s)|;
      forall i | 0 <= i < cut ensures Blank(s[i]) { if i > 0 { assert s[i] == s[1..][i - 1]; } }
    }
  }

  lemma {:induction false} TrimRightCuts(s: string)
    ensures |TrimRight(s)| <= |s| && TrimRight(s) == s[..|TrimRight(s)|]
    ensures forall i :: |TrimRight(s)| <= i < |s| ==> Blank(s[i])
    ensures TrimRight(s) != [] ==> !Blank(TrimRight(s)[|TrimRight(s)| - 1])
  {
    if s != [] && Blank(s[|s| - 1]) { TrimRightCuts(s[..|s| - 1]); }
  }

  /** Trimming cuts off all the blanks at both ends, and nothing else. */
  lemma TrimCuts(s: string) returns (i: nat, j: nat)
    ensures i <= j <= |s| && Trim(s) == s[i..j]
    ensures forall k :: 0 <= k < i || j <= k < |s| ==> Blank(s[k])
    ensures i < j ==> !Blank(s[i]) && !Blank(s[j - 1])
  {
    TrimLeftCuts(s);
    TrimRightCuts(TrimLeft(s));
    i := |s| - |TrimLeft(s)|;
    j := i + |Trim(s)|;
    assert TrimLeft(s) == s[i..];
    forall k | j <= k < |s| ensures Blank(s[k]) { assert s[k] == TrimLeft(s)[k - i]; }
  }

  lemma {:induction false} TextLessIsTransitive(a: string, b: string, c: string)
    requires TextLess(a, b) && TextLess(b, c)
    ensures TextLess(a, c)
  {
    if a != [] && a[0] == b[0] && b[0] == c[0] {
      TextLessIsTransitive(a[1..], b[1..], c[1..]);
    }
  }

  lemma {:induction false} TextLessIsIrreflexive(a: string)
    ensures !TextLess(a, a)
  {
    if a != [] { TextLessIsIrreflexive(a[1..]); }
  }

  lemma {:induction false} TextLessIsTotal(a: string, b: string)
    requires a != b
    ensures TextLess(a, b) || TextLess(b, a)
  {
    if a != [] && b != [] && a[0] == b[0] {
      assert a == [a[0]] + a[1..] && b == [b[0]] + b[1..];
      TextLessIsTotal(a[1..], b[1..]);
    }
  }

  /** The order both `normalizeMissing` and `evaluateEdge` sort by. */
  predicate ReferenceLess(a: Reference, b: Reference) {
    if a.nodeID == b.nodeID then TextLess(a.parameter, b.parameter) else a.nodeID < b.nodeID
  }

  lemma ReferenceOrder()
    ensures StrictOrder(ReferenceLess)
  {
    forall x: Reference ensures !ReferenceLess(x, x) { TextLessIsIrreflexive(x.parameter); }
    forall x, y, z | ReferenceLess(x, y) && ReferenceLess(y, z) ensures ReferenceLess(x, z) {
      if x.nodeID == y.nodeID == z.nodeID {
        TextLessIsTransitive(x.parameter, y.parameter, z.parameter);
      }
    }
    forall x: Reference, y: Reference | x != y ensures ReferenceLess(x, y) || ReferenceLess(y, x) {
      if x.nodeID == y.nodeID { TextLessIsTotal(x.parameter, y.parameter); }
    }
  }
}
