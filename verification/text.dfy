/** Composite string keys of the form `left:right`. */
module Text {

  function Join(left: string, right: string): string { left + ":" + right }

  /** When the left parts hold no ':', a composite key names one pair. */
  lemma JoinInjective(a: string, b: string, c: string, d: string)
    requires ':' !in a && ':' !in c
    requires Join(a, b) == Join(c, d)
    ensures a == c && b == d
  {
    var s := Join(a, b);
    assert s[|a|] == ':' && s[|c|] == ':';
    assert forall i :: 0 <= i < |a| ==> s[i] == a[i];
    assert forall i :: 0 <= i < |c| ==> s[i] == c[i];
    assert s[..|a|] == a && s[..|c|] == c;
    assert s[|a| + 1..] == b && s[|c| + 1..] == d;
  }
}
