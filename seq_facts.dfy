/** Small facts about sequence slices, stated once so that proofs can cite them cheaply. */
module SeqFacts {
  lemma HeadTail<T>(s: seq<T>)
    requires |s| >= 1
    ensures [s[0]] + s[1..] == s
  {
  }

  lemma Single<T>(s: seq<T>)
    requires |s| == 1
    ensures s == [s[0]]
  {
  }

  lemma TakeTake<T>(s: seq<T>, k: nat)
    requires k < |s|
    ensures s[..k + 1][..k] == s[..k] && s[..k + 1][k] == s[k]
  {
  }

  lemma TakeSnoc<T>(s: seq<T>, k: nat)
    requires k < |s|
    ensures s[..k + 1] == s[..k] + [s[k]]
  {
  }

  lemma TakeAll<T>(s: seq<T>)
    ensures s[..|s|] == s
  {
  }

  /** Dropping the first and the last element commute. */
  lemma DropTake<T>(s: seq<T>)
    requires |s| >= 2
    ensures s[1..][..|s| - 2] == s[..|s| - 1][1..]
    ensures s[1..][|s| - 2] == s[|s| - 1] && s[..|s| - 1][0] == s[0]
  {
  }

  lemma DropStep<T>(s: seq<T>, j: nat)
    requires j < |s|
    ensures s[j..][0] == s[j] && s[j..][1..] == s[j + 1..]
  {
  }

  lemma TakeNone<T>(s: seq<T>)
    ensures s[..0] == [] && s[0..] == s
  {
  }

  lemma Assoc3<T>(a: seq<T>, b: seq<T>, c: seq<T>)
    ensures (a + b) + c == a + (b + c)
  {
  }

  /** Cutting out the element at `j`: what follows moves up by one. */
  lemma Cut<T>(s: seq<T>, j: nat, r: seq<T>)
    requires j + 1 < |s| && r == s[..j] + s[j + 1..]
    ensures r[..j + 1] == s[..j] + [s[j + 1]]
    ensures r[j + 1..] == s[j + 2..]
    ensures forall k :: j <= k < |r| ==> r[k] == s[k + 1]
  {
  }
}
