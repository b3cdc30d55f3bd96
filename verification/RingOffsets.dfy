/** Conversion between the relative ring offsets stored in a transaction input and
    absolute output indices. Arithmetic is on unsigned 64-bit words. */
module RingOffsets {
  import opened CryptoNote

  function Sum(s: seq<u64>): nat {
    if s == [] then 0 else Sum(s[..|s| - 1]) + s[|s| - 1]
  }

  predicate Ascending(s: seq<u64>) {
    forall i :: 0 < i < |s| ==> s[i - 1] <= s[i]
  }

  /** Running sums, each reduced to 64 bits. */
  function Absolute(off: seq<u64>): (r: seq<u64>)
    ensures |r| == |off|
  {
    if |off| <= 1 then off
    else
      var init := Absolute(off[..|off| - 1]);
      init + [(init[|init| - 1] + off[|off| - 1]) % TWO64]
  }

  lemma ModAdd(a: nat, x: u64)
    ensures (a % TWO64 + x) % TWO64 == (a + x) % TWO64
  {
  }

  lemma {:induction false} LastIsSum(off: seq<u64>)
    requires off != []
    ensures Absolute(off)[|off| - 1] == Sum(off) % TWO64
  {
    var init := off[..|off| - 1];
    if init == [] {
      assert Sum(init) == 0;
    } else {
      LastIsSum(init);
      ModAdd(Sum(init), off[|off| - 1]);
    }
  }

  /** Entry i of the absolute ring is the sum of the first i + 1 offsets, modulo 2^64. */
  lemma {:induction false} AbsoluteIsPrefixSum(off: seq<u64>, i: nat)
    requires i < |off|
    ensures Absolute(off)[i] == Sum(off[..i + 1]) % TWO64
    decreases |off|
  {
    if i + 1 < |off| {
      AbsoluteIsPrefixSum(off[..|off| - 1], i);
      assert off[..|off| - 1][..i + 1] == off[..i + 1];
    } else {
      LastIsSum(off);
      assert off[..i + 1] == off;
    }
  }

  method RelativeOutputOffsetsToAbsolute(off: seq<u64>) returns (res: seq<u64>)
    ensures res == Absolute(off)
  {
    res := off;
    var i := 1;
    assert off[..|off|] == off;
    while i < |res|
      invariant 1 <= i
      invariant i <= |res| || |res| == 0
      invariant |res| == |off|
      invariant i <= |off| ==> res == Absolute(off[..i]) + off[i..]
      invariant |off| == 0 ==> res == off
    {
      assert off[..i + 1][..i] == off[..i];
      res := res[i := (res[i] + res[i - 1]) % TWO64];
      i := i + 1;
    }
  }

  function Insert(x: u64, s: seq<u64>): (r: seq<u64>)
    requires Ascending(s)
    ensures |r| == |s| + 1
    ensures r[|s|] == x || (s != [] && r[|s|] == s[|s| - 1] >= x)
    ensures Ascending(r)
    ensures multiset(r) == multiset(s) + multiset{x}
  {
    if s == [] || s[|s| - 1] <= x then s + [x]
    else
      assert s == s[..|s| - 1] + [s[|s| - 1]];
      Insert(x, s[..|s| - 1]) + [s[|s| - 1]]
  }

  /** `std::sort` with the default order. */
  function Sort(s: seq<u64>): (r: seq<u64>)
    ensures Ascending(r)
    ensures multiset(r) == multiset(s)
    ensures |r| == |s|
  {
    if s == [] then []
    else
      assert s == s[..|s| - 1] + [s[|s| - 1]];
      var r := Insert(s[|s| - 1], Sort(s[..|s| - 1]));
      assert |r| == |multiset(r)| == |multiset(s)|;
      r
  }

  function Differences(s: seq<u64>): (r: seq<u64>)
    ensures |r| == |s|
  {
    seq(|s|, i requires 0 <= i < |s| => if i == 0 then s[0] else (s[i] - s[i - 1]) % TWO64)
  }

  function Relative(off: seq<u64>): (r: seq<u64>)
    ensures |r| == |off|
  {
    Differences(Sort(off))
  }

  method AbsoluteOutputOffsetsToRelative(off: seq<u64>) returns (res: seq<u64>)
    ensures res == Relative(off)
  {
    res := off;
    if |off| == 0 {
      return;
    }
    ghost var sorted := Sort(off);
    res := Sort(res);
    var i := |res| - 1;
    while i != 0
      invariant 0 <= i < |res| == |off|
      invariant forall k :: 0 <= k <= i ==> res[k] == sorted[k]
      invariant forall k :: i < k < |res| ==> res[k] == Differences(sorted)[k]
    {
      res := res[i := (res[i] - res[i - 1]) % TWO64];
      i := i - 1;
    }
  }

  lemma {:induction false} AbsoluteOfDifferences(s: seq<u64>)
    ensures Absolute(Differences(s)) == s
  {
    if |s| > 1 {
      var init := s[..|s| - 1];
      AbsoluteOfDifferences(init);
      var d := Differences(s);
      assert d[..|d| - 1] == Differences(init);
      ModRestores(init[|init| - 1], s[|s| - 1]);
      assert Absolute(d) == init + [s[|s| - 1]];
    }
  }

  lemma ModRestores(a: u64, b: u64)
    ensures (a + (b - a) % TWO64) % TWO64 == b
  {
  }

  /** Encoding a list of indices and decoding it again yields the list in ascending order. */
  lemma AbsoluteOfRelative(xs: seq<u64>)
    ensures Absolute(Relative(xs)) == Sort(xs)
  {
    AbsoluteOfDifferences(Sort(xs));
  }

  /** The decoded ring ascends exactly when the sum fits in 64 bits; its last entry is then that sum. */
  lemma {:induction false} AscendingIffNoWrap(off: seq<u64>)
    ensures Ascending(Absolute(off)) <==> Sum(off) < TWO64
    ensures Sum(off) < TWO64 && off != [] ==> Absolute(off)[|off| - 1] == Sum(off)
  {
    if |off| == 1 {
      assert off[..0] == [];
    } else if |off| > 1 {
      var init := off[..|off| - 1];
      AscendingIffNoWrap(init);
      var a, b := Absolute(init), Absolute(off);
      assert forall i :: 0 <= i < |a| ==> b[i] == a[i];
      if Sum(init) < TWO64 <= Sum(off) {
        assert b[|b| - 1] == Sum(off) - TWO64 < b[|b| - 2];
      }
    }
  }

  lemma {:induction false} DifferencesOfAbsolute(off: seq<u64>)
    requires Sum(off) < TWO64
    ensures Differences(Absolute(off)) == off
  {
    if |off| > 1 {
      var init := off[..|off| - 1];
      DifferencesOfAbsolute(init);
      AscendingIffNoWrap(init);
      AscendingIffNoWrap(off);
      DifferencesGrow(Absolute(init), Absolute(off)[|init|]);
      assert off == init + [off[|init|]];
    }
  }

  lemma DifferencesGrow(s: seq<u64>, x: u64)
    requires s != [] && s[|s| - 1] <= x
    ensures Differences(s + [x]) == Differences(s) + [x - s[|s| - 1]]
  {
  }

  lemma InsertAtEnd(x: u64, s: seq<u64>)
    requires Ascending(s + [x])
    ensures Ascending(s) && Insert(x, s) == s + [x]
  {
    assert forall i :: 0 <= i < |s| ==> (s + [x])[i] == s[i];
    assert s != [] ==> (s + [x])[|s| - 1] <= (s + [x])[|s|];
  }

  lemma {:induction false} SortOfAscending(s: seq<u64>)
    requires Ascending(s)
    ensures Sort(s) == s
  {
    hide Insert;
    if s != [] {
      var init, last := s[..|s| - 1], s[|s| - 1];
      assert s == init + [last];
      InsertAtEnd(last, init);
      SortOfAscending(init);
    }
  }

  /** Decoding a ring and encoding it again is the identity exactly when no running sum
      overflows 64 bits. */
  lemma RelativeOfAbsoluteIff(off: seq<u64>)
    ensures Relative(Absolute(off)) == off <==> Sum(off) < TWO64
  {
    AscendingIffNoWrap(off);
    if Sum(off) < TWO64 {
      SortOfAscending(Absolute(off));
      DifferencesOfAbsolute(off);
    } else if Relative(Absolute(off)) == off {
      AbsoluteOfRelative(Absolute(off));
      assert false;
    }
  }
}
