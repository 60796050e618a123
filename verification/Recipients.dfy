/** Listing without repetitions, as `Save` does with its recipients. */
module Repeats {

  /** The names without repetitions, in the order of first occurrence. */
  function Distinct<T(==)>(names: seq<T>): seq<T>
  {
    if names == [] then []
    else
      var init, last := names[..|names| - 1], names[|names| - 1];
      if last in init then Distinct(init) else Distinct(init) + [last]
  }

  lemma {:induction false} DistinctMembers<T>(names: seq<T>)
    ensures forall r :: r in Distinct(names) <==> r in names
    ensures |Distinct(names)| <= |names|
  {
    if names != [] {
      var init, last := names[..|names| - 1], names[|names| - 1];
      DistinctMembers(init);
      assert names == init + [last];
    }
  }

  /** `at` gives the position of the first occurrence of each listed name. */
  ghost predicate FirstOccurrences<T>(names: seq<T>, out: seq<T>, at: seq<nat>)
  {
    && |at| == |out|
    && (forall i :: 0 <= i < |at| ==> at[i] < |names| && names[at[i]] == out[i] && out[i] !in names[..at[i]])
    && (forall i, j :: 0 <= i < j < |at| ==> at[i] < at[j])
  }

  /** Every name is listed once, at its first occurrence. */
  lemma {:induction false} DistinctIsFirstOccurrences<T>(names: seq<T>) returns (at: seq<nat>)
    ensures FirstOccurrences(names, Distinct(names), at)
    ensures forall i, j :: 0 <= i < j < |Distinct(names)| ==> Distinct(names)[i] != Distinct(names)[j]
  {
    if names == [] {
      at := [];
    } else {
      var init, last := names[..|names| - 1], names[|names| - 1];
      at := DistinctIsFirstOccurrences(init);
      DistinctMembers(init);
      LaterName(init, last, Distinct(init), at);
      assert names == init + [last];
      if last !in init {
        at := at + [|init|];
      }
    }
  }

  lemma LaterName<T>(init: seq<T>, last: T, out: seq<T>, at: seq<nat>)
    requires FirstOccurrences(init, out, at)
    ensures FirstOccurrences(init + [last], out, at)
    ensures last !in init ==> FirstOccurrences(init + [last], out + [last], at + [|init|])
  {
    var names := init + [last];
    assert forall i :: 0 <= i < |at| ==> names[..at[i]] == init[..at[i]];
    assert names[..|init|] == init;
  }

  /** The loop at the head of `Save`, over the normalized recipients. */
  method DropRepeats<T(==)>(names: seq<T>) returns (out: seq<T>)
    ensures out == Distinct(names)
  {
    out := [];
    var seen: set<T> := {};
    for n := 0 to |names|
      invariant out == Distinct(names[..n])
      invariant forall r :: r in seen <==> r in names[..n]
    {
      assert names[..n + 1][..n] == names[..n] && names[..n + 1] == names[..n] + [names[n]];
      if names[n] !in seen {
        out := out + [names[n]];
        seen := seen + {names[n]};
      }
    }
    assert names[..|names|] == names;
  }
}

/** Recipient addresses: the domain is folded, the local part kept (section 2.4 of RFC 5321). */
module Recipients {

  import opened Ascii

  function Lower(s: string): (r: string)
    ensures |r| == |s|
    ensures forall i :: 0 <= i < |s| ==> r[i] == Fold(s[i])
  {
    if s == "" then "" else [Fold(s[0])] + Lower(s[1..])
  }

  /** The index of the last `@`, or -1. */
  function LastAt(s: string): (i: int)
    ensures -1 <= i < |s|
    ensures i >= 0 ==> s[i] == '@'
    ensures forall j :: i < j < |s| ==> s[j] != '@'
  {
    if s == "" then -1
    else if s[|s| - 1] == '@' then |s| - 1
    else LastAt(s[..|s| - 1])
  }

  function Normalize(address: string): string
  {
    var at := LastAt(address);
    if at >= 0 then address[..at + 1] + Lower(address[at + 1..]) else address
  }

  lemma LastAtUnique(s: string, i: int)
    requires -1 <= i < |s|
    requires i >= 0 ==> s[i] == '@'
    requires forall j :: i < j < |s| ==> s[j] != '@'
    ensures LastAt(s) == i
  {
  }

  lemma NormalizeKeepsAt(a: string)
    ensures |Normalize(a)| == |a| && LastAt(Normalize(a)) == LastAt(a)
  {
    var at, n := LastAt(a), Normalize(a);
    if at >= 0 {
      forall j | at < j < |n| ensures n[j] != '@' {
        assert n[j] == Fold(a[j]);
      }
    }
    LastAtUnique(n, at);
  }

  lemma Joined(x: string, y: string, i: nat)
    ensures (x + y)[..|x|] == x && (x + y)[|x|..] == y
    ensures i < |x + y| ==> (x + y)[i] == if i < |x| then x[i] else y[i - |x|]
  {
  }

  lemma NormalizeParts(a: string)
    requires LastAt(a) >= 0
    ensures Normalize(a)[..LastAt(a) + 1] == a[..LastAt(a) + 1]
    ensures Normalize(a)[LastAt(a) + 1..] == Lower(a[LastAt(a) + 1..])
  {
    Joined(a[..LastAt(a) + 1], Lower(a[LastAt(a) + 1..]), 0);
  }

  lemma LowerTwice(s: string)
    ensures Lower(Lower(s)) == Lower(s)
  {
  }

  /** Two addresses name the same mailbox when they differ at most in the case of their domains. */
  predicate SameMailbox(a: string, b: string)
  {
    var at := LastAt(a);
    && at == LastAt(b)
    && if at < 0 then a == b else a[..at + 1] == b[..at + 1] && Lower(a[at + 1..]) == Lower(b[at + 1..])
  }

  lemma NormalizeAlike(a: string, b: string)
    ensures Normalize(a) == Normalize(b) <==> SameMailbox(a, b)
  {
    NormalizeKeepsAt(a);
    NormalizeKeepsAt(b);
    if LastAt(a) == LastAt(b) >= 0 {
      NormalizeParts(a);
      NormalizeParts(b);
    }
  }

  lemma NormalizeSame(a: string)
    ensures SameMailbox(a, Normalize(a))
  {
    NormalizeKeepsAt(a);
    if LastAt(a) >= 0 {
      NormalizeParts(a);
      LowerTwice(a[LastAt(a) + 1..]);
    }
  }

  lemma NormalizeTwice(a: string)
    ensures Normalize(Normalize(a)) == Normalize(a)
  {
    NormalizeSame(a);
    NormalizeAlike(a, Normalize(a));
  }

  /** Normalizing is idempotent and identifies exactly the addresses of one mailbox. */
  lemma NormalizeMeaning(a: string, b: string)
    ensures Normalize(Normalize(a)) == Normalize(a)
    ensures SameMailbox(a, Normalize(a))
    ensures Normalize(a) == Normalize(b) <==> SameMailbox(a, b)
  {
    NormalizeTwice(a);
    NormalizeSame(a);
    NormalizeAlike(a, b);
  }

  /** The character at `i` stands behind the last `@` of an address that has one. */
  predicate InDomain(a: string, i: nat)
    requires i < |a|
  {
    '@' in a[..i] && '@' !in a[i..]
  }

  lemma DomainBehindAt(a: string, i: nat)
    requires i < |a|
    ensures InDomain(a, i) <==> 0 <= LastAt(a) < i
  {
    var at := LastAt(a);
    if 0 <= at < i {
      assert a[..i][at] == '@';
    } else if at >= i {
      assert a[i..][at - i] == '@';
    }
  }

  lemma FoldsBehindAt(a: string, i: nat)
    requires i < |a| == |Normalize(a)|
    ensures Normalize(a)[i] == if 0 <= LastAt(a) < i then Fold(a[i]) else a[i]
  {
    var at := LastAt(a);
    if at >= 0 {
      Joined(a[..at + 1], Lower(a[at + 1..]), i);
      if at < i {
        assert a[at + 1..][i - at - 1] == a[i];
      }
    }
  }

  /** A capital letter of the domain becomes small; any other character stays. */
  function CharOf(a: string, i: nat): char
    requires i < |a|
  {
    if InDomain(a, i) && 65 <= a[i] as int <= 90 then (a[i] as int + 32) as char else a[i]
  }

  lemma NormalizeChar(a: string, i: nat)
    requires i < |a| == |Normalize(a)|
    ensures Normalize(a)[i] == CharOf(a, i)
  {
    DomainBehindAt(a, i);
    FoldsBehindAt(a, i);
  }

  /** Character by character: capital letters of the domain become small ones, and nothing else changes. */
  lemma NormalizeChars(a: string)
    ensures |Normalize(a)| == |a| && forall i :: 0 <= i < |a| ==> Normalize(a)[i] == CharOf(a, i)
  {
    NormalizeKeepsAt(a);
    var n := Normalize(a);
    forall i | 0 <= i < |a| ensures n[i] == CharOf(a, i) {
      NormalizeChar(a, i);
    }
  }

  /** No capital letter stands in the domain. */
  predicate NormalForm(a: string)
  {
    forall i :: 0 <= i < |a| && 65 <= a[i] as int <= 90 ==> !InDomain(a, i)
  }

  lemma NormalFormStays(a: string)
    ensures NormalForm(a) <==> Normalize(a) == a
  {
    NormalizeChars(a);
  }

  function NormalizeAll(recipients: seq<string>): seq<string>
  {
    seq(|recipients|, i requires 0 <= i < |recipients| => Normalize(recipients[i]))
  }
}
