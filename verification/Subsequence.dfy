/** Subsequences of a sequence without repetitions inherit its order. */
module Subsequence {

  ghost predicate NoRepeats<T>(s: seq<T>) {
    forall i, j :: 0 <= i < j < |s| ==> s[i] != s[j]
  }

  /** `l` arises from `s` by dropping elements. */
  ghost predicate Subseq<T>(l: seq<T>, s: seq<T>) {
    if l == [] then true
    else if s == [] then false
    else
      var (l', s') := (l[..|l| - 1], s[..|s| - 1]);
      (l[|l| - 1] == s[|s| - 1] && Subseq(l', s')) || Subseq(l, s')
  }

  lemma SubseqSkip<T>(l: seq<T>, s: seq<T>, x: T)
    requires Subseq(l, s)
    ensures Subseq(l, s + [x])
  {
    assert (s + [x])[..|s|] == s;
  }

  lemma SubseqTake<T>(l: seq<T>, s: seq<T>, x: T)
    requires Subseq(l, s)
    ensures Subseq(l + [x], s + [x])
  {
    assert (s + [x])[..|s|] == s && (l + [x])[..|l|] == l;
  }

  /** Two elements of a subsequence occur in the same order in the sequence. */
  lemma {:induction false} SubseqOrder<T>(l: seq<T>, s: seq<T>, i: nat, j: nat) returns (a: nat, b: nat)
    requires Subseq(l, s) && i <= j < |l|
    ensures a <= b < |s| && s[a] == l[i] && s[b] == l[j]
    ensures i < j ==> a < b
  {
    var l', s' := l[..|l| - 1], s[..|s| - 1];
    if l[|l| - 1] == s[|s| - 1] && Subseq(l', s') {
      if j < |l| - 1 {
        a, b := SubseqOrder(l', s', i, j);
      } else {
        b := |s| - 1;
        if i < j {
          var c;
          a, c := SubseqOrder(l', s', i, i);
        } else {
          a := b;
        }
      }
    } else {
      a, b := SubseqOrder(l, s', i, j);
    }
  }

  lemma SubseqNoRepeats<T>(l: seq<T>, s: seq<T>)
    requires Subseq(l, s) && NoRepeats(s)
    ensures NoRepeats(l)
  {
    forall i, j | 0 <= i < j < |l| ensures l[i] != l[j] {
      var a, b := SubseqOrder(l, s, i, j);
    }
  }

  lemma SubseqMember<T>(l: seq<T>, s: seq<T>, i: nat)
    requires Subseq(l, s) && i < |l|
    ensures l[i] in s
  {
    var a, b := SubseqOrder(l, s, i, i);
  }

  /** Two subsequences of one sequence agree on the order of the elements they share. */
  lemma SubseqsAgree<T>(l: seq<T>, l': seq<T>, s: seq<T>, i: nat, j: nat, i': nat, j': nat)
    requires Subseq(l, s) && Subseq(l', s) && NoRepeats(s)
    requires i < j < |l| && i' < |l'| && j' < |l'|
    requires l'[i'] == l[i] && l'[j'] == l[j]
    ensures i' < j'
  {
    var a, b := SubseqOrder(l, s, i, j);
    if j' < i' {
      var c, d := SubseqOrder(l', s, j', i');
    }
  }
}
