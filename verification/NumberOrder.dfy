/**
 The order the render puts a rule's alternatives back in: those that end in a numbered helper of the
 compiler by its number, in the places such alternatives stand at; every other one where it is.
 */
module NumberOrder {
  import opened Text
  import opened Strings
  import opened RankSort

  /** An element of an alternative, as a spec holds it. */
  datatype El = Tok(name: string) | RefTo(name: string)

  predicate IsDigits(s: string) {
    s != "" && forall i | 0 <= i < |s| :: '0' <= s[i] <= '9'
  }

  function Number(s: string): (n: nat)
    requires forall i | 0 <= i < |s| :: '0' <= s[i] <= '9'
  {
    if s == "" then 0 else 10 * Number(s[..|s| - 1]) + (s[|s| - 1] as int - '0' as int)
  }

  /** The number of the helper an alternative ends in, or -1. */
  function AltNumber(alt: seq<El>): (n: int)
    ensures n >= -1
  {
    if alt == [] || alt[|alt| - 1].Tok? then -1
    else
      var name := alt[|alt| - 1].name;
      if !HasPrefix("_gen", name) then -1
      else
        var d := Split("_", After("_gen", name))[0];
        if IsDigits(d) then Number(d) else -1
  }

  // ---- which number an alternative has

  const DIGITS := "0123456789"

  /** A number as it is printed, in base ten. */
  function Decimal(n: nat): (d: string)
    ensures d != ""
  {
    if n < 10 then [DIGITS[n]] else Decimal(n / 10) + [DIGITS[n % 10]]
  }

  function Zeros(k: nat): (z: string)
    ensures |z| == k && forall i | 0 <= i < k :: z[i] == '0'
  {
    seq(k, _ => '0')
  }

  lemma {:induction false} DecimalReads(n: nat)
    ensures IsDigits(Decimal(n)) && Number(Decimal(n)) == n
  {
    if n >= 10 {
      DecimalReads(n / 10);
      assert Decimal(n)[..|Decimal(n)| - 1] == Decimal(n / 10);
    } else {
      assert Decimal(n)[..0] == "";
    }
  }

  lemma {:induction false} LeadingZeros(k: nat, d: string)
    requires IsDigits(d)
    ensures IsDigits(Zeros(k) + d) && Number(Zeros(k) + d) == Number(d)
    decreases |d|
  {
    var s := Zeros(k) + d;
    assert s[..|s| - 1] == Zeros(k) + d[..|d| - 1];
    if |d| > 1 {
      LeadingZeros(k, d[..|d| - 1]);
    } else {
      assert s[..|s| - 1] == Zeros(k) && d[..0] == "";
      ZerosNumber(k);
    }
  }

  lemma {:induction false} ZerosNumber(k: nat)
    ensures Number(Zeros(k)) == 0
  {
    if k > 0 {
      assert Zeros(k)[..k - 1] == Zeros(k - 1);
      ZerosNumber(k - 1);
    }
  }

  /** Digits are zeros and a number as it is printed, and read as that number. */
  lemma {:induction false} DigitsAre(d: string) returns (k: nat)
    requires IsDigits(d)
    ensures d == Zeros(k) + Decimal(Number(d))
    decreases |d|
  {
    hide Number, Decimal;
    var n := |d| - 1;
    var c := d[n] as int - '0' as int;
    NumberOfDigits(d);
    if n == 0 {
      k := 0;
      DecimalAppended(0, c);
      assert DIGITS[c] == d[n] && d == [d[n]];
    } else {
      k := DigitsAre(d[..n]);
      var m := Number(d[..n]);
      DecimalAppended(m, c);
      assert DIGITS[c] == d[n] && d == d[..n] + [d[n]];
      if m == 0 {
        DecimalOfZero();
        k := n;
        assert d[..n] == Zeros(n);
      } else {
        Assoc(Zeros(k), Decimal(m), [d[n]]);
      }
    }
  }

  lemma NumberOfDigits(d: string)
    requires IsDigits(d)
    ensures var n := |d| - 1;
            Number(d) == (if n == 0 then 0 else 10 * Number(d[..n])) + (d[n] as int - '0' as int)
  {
    assert d[..0] == "";
  }

  lemma DecimalOfZero()
    ensures Decimal(0) == "0"
  {
  }

  lemma DecimalAppended(m: nat, c: nat)
    requires c < 10
    ensures Decimal(10 * m + c) == if m == 0 then [DIGITS[c]] else Decimal(m) + [DIGITS[c]]
  {
  }

  /** What may stand behind a helper's number in its name. */
  predicate Suffix(t: string) {
    t == "" || t[0] == '_'
  }

  lemma FirstPiece(d: string, t: string)
    requires '_' !in d && Suffix(t)
    ensures Split("_", d + t)[0] == d
  {
    hide Split, Cuts, IndexOf;
    CutsIfAbsent("_", d);
    if t == "" {
      Text.Ends(d);
      IndexNone("_", d);
      SplitUnfolds("_", d);
    } else {
      SplitFirst("_", d, t[1..]);
      assert d + "_" + t[1..] == d + t;
    }
  }

  /** A name of the compiler's with its number read; any other name has none. */
  lemma NumberRead(alt: seq<El>, d: string, t: string)
    requires IsDigits(d) && Suffix(t)
    ensures AltNumber(alt + [RefTo("_gen" + d + t)]) == Number(d)
  {
    hide Split, After, HasPrefix, Number;
    var name := "_gen" + (d + t);
    assert "_gen" + d + t == name;
    AfterFirst("_gen", d + t);
    FirstPiece(d, t);
  }

  lemma AltNumberIs(alt: seq<El>, k: nat, n: nat, t: string)
    requires Suffix(t)
    ensures AltNumber(alt + [RefTo("_gen" + (Zeros(k) + Decimal(n)) + t)]) == n
  {
    DecimalReads(n);
    LeadingZeros(k, Decimal(n));
    NumberRead(alt, Zeros(k) + Decimal(n), t);
  }

  /** An alternative has no number exactly when it ends in no reference to such a name. */
  lemma NoNumberIff(alt: seq<El>)
    ensures AltNumber(alt) == -1 <==>
            !exists d, t :: alt != [] && IsDigits(d) && Suffix(t) && alt[|alt| - 1] == RefTo("_gen" + d + t)
  {
    forall d, t | alt != [] && IsDigits(d) && Suffix(t) && alt[|alt| - 1] == RefTo("_gen" + d + t)
      ensures AltNumber(alt) >= 0
    {
      assert alt == alt[..|alt| - 1] + [RefTo("_gen" + d + t)];
      NumberRead(alt[..|alt| - 1], d, t);
    }
    if AltNumber(alt) >= 0 {
      var d, t := NumberedName(alt);
    }
  }

  lemma NumberedName(alt: seq<El>) returns (d: string, t: string)
    requires AltNumber(alt) >= 0
    ensures alt != [] && IsDigits(d) && Suffix(t) && alt[|alt| - 1] == RefTo("_gen" + d + t)
  {
    hide Split, After, HasPrefix, Number;
    var name := alt[|alt| - 1].name;
    HasPrefixIff("_gen", name);
    var rest := name[4..];
    assert name == "_gen" + rest;
    AfterFirst("_gen", rest);
    d := Split("_", rest)[0];
    t := PieceAndRest(rest);
    assert "_gen" + d + t == "_gen" + (d + t);
  }

  lemma PieceAndRest(s: string) returns (t: string)
    ensures Suffix(t) && s == Split("_", s)[0] + t
  {
    var k := IndexOf("_", s);
    SplitUnfolds("_", s);
    if k < 0 {
      t := "";
    } else {
      t := s[k..];
      assert s[k..k + 1] == "_" && s == s[..k] + s[k..];
    }
  }

  // ---- the order

  function Numbers(alts: seq<seq<El>>): (nums: seq<int>)
    ensures |nums| == |alts|
    ensures forall i | 0 <= i < |alts| :: nums[i] == AltNumber(alts[i])
  {
    if alts == [] then [] else [AltNumber(alts[0])] + Numbers(alts[1..])
  }

  /** The first n places, those of them that hold a numbered alternative. */
  function Slots(nums: seq<int>, n: nat): (s: seq<nat>)
    requires n <= |nums|
    ensures |s| <= n
    ensures forall p | 0 <= p < |s| :: s[p] < n && nums[s[p]] >= 0
    ensures forall p, q | 0 <= p < q < |s| :: s[p] < s[q]
  {
    if n == 0 then []
    else if nums[n - 1] >= 0 then Slots(nums, n - 1) + [n - 1]
    else Slots(nums, n - 1)
  }

  function SlotNumbers(nums: seq<int>): (keys: seq<int>)
    ensures |keys| == |Slots(nums, |nums|)|
    ensures forall p | 0 <= p < |keys| :: keys[p] == nums[Slots(nums, |nums|)[p]]
  {
    var s := Slots(nums, |nums|);
    seq(|s|, p requires 0 <= p < |s| => nums[s[p]])
  }

  lemma {:induction false} SlotOf(nums: seq<int>, i: nat, n: nat)
    requires i < n <= |nums| && nums[i] >= 0
    ensures |Slots(nums, i)| < |Slots(nums, n)| && Slots(nums, n)[|Slots(nums, i)|] == i
  {
    if i < n - 1 { SlotOf(nums, i, n - 1); }
  }

  /** Which alternative comes to stand at place i. */
  function Source(nums: seq<int>, i: nat): (j: nat)
    requires i < |nums|
    ensures j < |nums|
  {
    if nums[i] < 0 then i
    else
      SlotOf(nums, i, |nums|);
      Slots(nums, |nums|)[Nth(SlotNumbers(nums), |Slots(nums, i)|)]
  }

  function Reordered(alts: seq<seq<El>>): (r: seq<seq<El>>)
    ensures |r| == |alts|
  {
    var nums := Numbers(alts);
    seq(|alts|, i requires 0 <= i < |alts| => alts[Source(nums, i)])
  }

  lemma {:induction false} SlotsGrow(nums: seq<int>, i: nat, j: nat)
    requires i <= j <= |nums|
    ensures |Slots(nums, i)| <= |Slots(nums, j)|
  {
    if i < j { SlotsGrow(nums, i, j - 1); }
  }

  /** The numbered alternatives come in the order of their numbers, ties as they stood. */
  lemma SourceOrders(nums: seq<int>, i: nat, j: nat)
    requires i < j < |nums| && nums[i] >= 0 && nums[j] >= 0
    ensures var s, t := Source(nums, i), Source(nums, j);
            nums[s] >= 0 && nums[t] >= 0 && (nums[s] < nums[t] || (nums[s] == nums[t] && s < t))
  {
    SlotOf(nums, i, |nums|);
    SlotOf(nums, j, |nums|);
    SlotOf(nums, i, i + 1);
    SlotsGrow(nums, i + 1, j);
    NthOrders(SlotNumbers(nums), |Slots(nums, i)|, |Slots(nums, j)|);
  }

  /** Every alternative comes to stand somewhere. */
  lemma SourceReaches(nums: seq<int>, j: nat) returns (i: nat)
    requires j < |nums|
    ensures i < |nums| && Source(nums, i) == j
  {
    if nums[j] < 0 {
      i := j;
    } else {
      SlotOf(nums, j, |nums|);
      var p := |Slots(nums, j)|;
      NthOfRank(SlotNumbers(nums), p);
      i := Slots(nums, |nums|)[Rank(SlotNumbers(nums), p)];
      SlotPlace(nums, Rank(SlotNumbers(nums), p));
    }
  }

  lemma SlotPlace(nums: seq<int>, p: nat)
    requires p < |Slots(nums, |nums|)|
    ensures |Slots(nums, Slots(nums, |nums|)[p])| == p
  {
    var i := Slots(nums, |nums|)[p];
    SlotOf(nums, i, |nums|);
  }

  lemma SourceDiffers(nums: seq<int>, i: nat, j: nat)
    requires i < j < |nums|
    ensures Source(nums, i) != Source(nums, j)
  {
    if nums[i] >= 0 && nums[j] >= 0 { SourceOrders(nums, i, j); }
  }

  function Sources(nums: seq<int>): (p: seq<nat>)
    ensures |p| == |nums| && forall i | 0 <= i < |nums| :: p[i] == Source(nums, i)
  {
    seq(|nums|, i requires 0 <= i < |nums| => Source(nums, i))
  }

  lemma SourcesPermute(nums: seq<int>)
    ensures Permutes(Sources(nums))
  {
    hide Source;
    var p := Sources(nums);
    forall i, j | 0 <= i < j < |nums| ensures p[i] != p[j] { SourceDiffers(nums, i, j); }
    forall j: nat | j < |nums| ensures j in p {
      var i := SourceReaches(nums, j);
      assert p[i] == j;
    }
  }

  // ---- the law: reordering is a stable sort in place

  /** Every alternative is kept, as often as it stands. */
  lemma ReorderedIsPermutation(alts: seq<seq<El>>)
    ensures multiset(Reordered(alts)) == multiset(alts)
  {
    hide Source;
    SourcesPermute(Numbers(alts));
    Permuted(alts, Sources(Numbers(alts)), Reordered(alts));
  }

  /** An alternative that ends in no numbered helper keeps its place, and no other takes it. */
  lemma ReorderedKeeps(alts: seq<seq<El>>, i: nat)
    requires i < |alts|
    ensures AltNumber(alts[i]) < 0 ==> Reordered(alts)[i] == alts[i]
    ensures AltNumber(alts[i]) >= 0 ==> AltNumber(Reordered(alts)[i]) >= 0
  {
    hide AltNumber;
    if Numbers(alts)[i] >= 0 { SlotOf(Numbers(alts), i, |alts|); }
  }

  /** The others come in the order of their numbers, and ties as they stood. */
  lemma ReorderedIsSorted(alts: seq<seq<El>>, i: nat, j: nat)
    requires i < j < |alts| && AltNumber(alts[i]) >= 0 && AltNumber(alts[j]) >= 0
    ensures var r, p := Reordered(alts), Sources(Numbers(alts));
            && r[i] == alts[p[i]] && r[j] == alts[p[j]]
            && (AltNumber(r[i]) < AltNumber(r[j]) || (AltNumber(r[i]) == AltNumber(r[j]) && p[i] < p[j]))
  {
    hide AltNumber;
    SourceOrders(Numbers(alts), i, j);
  }

  /** Alternatives already in the order of their numbers are left as they are. */
  lemma OrderedIsKept(alts: seq<seq<El>>, i: nat)
    requires forall i, j | 0 <= i < j < |alts| && AltNumber(alts[i]) >= 0 && AltNumber(alts[j]) >= 0 ::
               AltNumber(alts[i]) <= AltNumber(alts[j])
    requires i < |alts|
    ensures Reordered(alts)[i] == alts[i]
  {
    hide AltNumber;
    var nums := Numbers(alts);
    if nums[i] >= 0 {
      SlotOf(nums, i, |nums|);
      InOrder(nums, |Slots(nums, i)|);
    }
  }

  lemma InOrder(nums: seq<int>, p: nat)
    requires forall i, j | 0 <= i < j < |nums| && nums[i] >= 0 && nums[j] >= 0 :: nums[i] <= nums[j]
    requires p < |Slots(nums, |nums|)|
    ensures Nth(SlotNumbers(nums), p) == p
  {
    SortedRank(SlotNumbers(nums), p, |SlotNumbers(nums)|);
    NthOfRank(SlotNumbers(nums), p);
  }

  lemma {:induction false} SortedRank(keys: seq<int>, p: nat, n: nat)
    requires p < |keys| && n <= |keys| && forall a, b | 0 <= a < b < |keys| :: keys[a] <= keys[b]
    ensures Count(keys, p, n) == if n <= p then n else p
  {
    if n > 0 { SortedRank(keys, p, n - 1); }
  }
}
