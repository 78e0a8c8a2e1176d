/** Typed capability values and their canonical set constructors, src/capability.cpp:30-62, 180-204, 765-810. */
module Capability {
  import opened Bytes
  import opened Ordering

  datatype SpectrumDescriptor = SpectrumDescriptor(
    lane: nat, centerNm: real, frequencyThz: real, grid: nat, channel: Text)

  datatype CapabilityValue =
    | NoValue
    | BooleanValue(flag: bool)
    | CountValue(count: int)
    | RealValue(number: real)
    | EnumValue(enumerator: int)
    | EnumSet(enumerators: seq<int>)
    | TextValue(text: Text)
    | TextSet(texts: seq<Text>)
    | Spectrum(descriptors: seq<SpectrumDescriptor>)

  predicate IntLess(a: int, b: int) { a < b }

  /** The defaulted three-way comparison of SpectrumDescriptor: member by member, in order. */
  predicate DescriptorLess(a: SpectrumDescriptor, b: SpectrumDescriptor) {
    if a.lane != b.lane then a.lane < b.lane
    else if a.centerNm != b.centerNm then a.centerNm < b.centerNm
    else if a.frequencyThz != b.frequencyThz then a.frequencyThz < b.frequencyThz
    else if a.grid != b.grid then a.grid < b.grid
    else TextLess(a.channel, b.channel)
  }

  /** std::unique: of each run of equal neighbours only the first stays. */
  function Unique<T(==)>(s: seq<T>): (r: seq<T>)
    ensures forall x :: x in r ==> x in s
    ensures forall x :: x in s ==> x in r
    ensures s != [] ==> r != [] && r[0] == s[0]
  {
    if |s| <= 1 then s
    else if s[0] == s[1] then Unique(s[1..])
    else [s[0]] + Unique(s[1..])
  }

  /** canonical_enum_set, canonical_text_set and canonical_spectrum: sort, then drop repeats. */
  function CanonicalSet<T(==)>(values: seq<T>, less: (T, T) -> bool): seq<T> {
    Unique(Sort(values, less))
  }

  function MakeEnumSet(values: seq<int>): CapabilityValue { EnumSet(CanonicalSet(values, IntLess)) }

  function MakeTextSet(values: seq<Text>): CapabilityValue { TextSet(CanonicalSet(values, TextLess)) }

  function MakeSpectrum(values: seq<SpectrumDescriptor>): CapabilityValue {
    Spectrum(CanonicalSet(values, DescriptorLess))
  }

  lemma TotalIsWeak<T(!new)>(less: (T, T) -> bool)
    requires TotalOrder(less)
    ensures WeakOrder(less)
  {
  }

  lemma {:induction false} UniqueStrict<T(!new)>(s: seq<T>, less: (T, T) -> bool)
    requires TotalOrder(less) && Sorted(s, less)
    ensures StrictlySorted(Unique(s), less)
  {
    if |s| > 1 {
      UniqueStrict(s[1..], less);
      if s[0] != s[1] {
        var t := Unique(s[1..]);
        forall k | 0 <= k < |t| ensures less(s[0], t[k]) {
          assert t[k] in s[1..];
          HeadBelowTail(s, t[k], less);
        }
      }
    }
  }

  lemma HeadBelowTail<T(!new)>(s: seq<T>, x: T, less: (T, T) -> bool)
    requires TotalOrder(less) && Sorted(s, less)
    requires |s| > 1 && s[0] != s[1] && x in s[1..]
    ensures less(s[0], x)
  {
    var i :| 1 <= i < |s| && s[i] == x;
    assert less(s[0], s[1]);
    assert i == 1 || s[i] == s[1] || less(s[1], s[i]);
  }

  /** A canonical set is strictly ascending and holds exactly the given members. */
  lemma CanonicalSetShape<T(!new)>(values: seq<T>, less: (T, T) -> bool)
    requires TotalOrder(less)
    ensures StrictlySorted(CanonicalSet(values, less), less)
    ensures forall x :: x in CanonicalSet(values, less) <==> x in values
  {
    TotalIsWeak(less);
    SortSorted(values, less);
    UniqueStrict(Sort(values, less), less);
    forall x ensures x in Sort(values, less) <==> x in values {
      assert x in multiset(Sort(values, less)) <==> x in multiset(values);
    }
  }

  function ToSet<T(==)>(s: seq<T>): set<T> { set x | x in s }

  /** Two canonical sets are the same sequence exactly when they were built from the same members. */
  lemma CanonicalSetDecides<T(!new)>(a: seq<T>, b: seq<T>, less: (T, T) -> bool)
    requires TotalOrder(less)
    ensures CanonicalSet(a, less) == CanonicalSet(b, less) <==> ToSet(a) == ToSet(b)
  {
    CanonicalSetShape(a, less);
    CanonicalSetShape(b, less);
    if ToSet(a) == ToSet(b) {
      forall x ensures x in CanonicalSet(a, less) <==> x in CanonicalSet(b, less) {
        assert x in ToSet(a) <==> x in a;
        assert x in ToSet(b) <==> x in b;
      }
      StrictSetUnique(CanonicalSet(a, less), CanonicalSet(b, less), less);
    }
    if CanonicalSet(a, less) == CanonicalSet(b, less) {
      forall x ensures x in ToSet(a) <==> x in ToSet(b) {
        assert x in CanonicalSet(a, less) <==> x in a;
        assert x in CanonicalSet(b, less) <==> x in b;
      }
    }
  }

  lemma TextOrder()
    ensures TotalOrder(TextLess)
  {
    forall x: Text, y: Text
      ensures x == y || TextLess(x, y) || TextLess(y, x)
      ensures TextLess(x, y) ==> !TextLess(y, x)
    {
      TextLessTotal(x, y);
    }
    forall x: Text, y: Text, z: Text | TextLess(x, y) && TextLess(y, z) ensures TextLess(x, z) {
      TextLessTransitive(x, y, z);
    }
  }

  lemma DescriptorOrder()
    ensures TotalOrder(DescriptorLess)
  {
    forall x: SpectrumDescriptor, y: SpectrumDescriptor
      ensures x == y || DescriptorLess(x, y) || DescriptorLess(y, x)
      ensures DescriptorLess(x, y) ==> !DescriptorLess(y, x)
    {
      TextLessTotal(x.channel, y.channel);
    }
    forall x: SpectrumDescriptor, y: SpectrumDescriptor, z: SpectrumDescriptor
      | DescriptorLess(x, y) && DescriptorLess(y, z)
      ensures DescriptorLess(x, z)
    {
      if TextLess(x.channel, y.channel) && TextLess(y.channel, z.channel) {
        TextLessTransitive(x.channel, y.channel, z.channel);
      }
    }
  }

  /** capability_values_equal on constructed sets compares members, never arrival order or repeats. */
  lemma SetsCompareByMembers(a: seq<int>, b: seq<int>, c: seq<Text>, d: seq<Text>,
                             e: seq<SpectrumDescriptor>, f: seq<SpectrumDescriptor>)
    ensures MakeEnumSet(a) == MakeEnumSet(b) <==> ToSet(a) == ToSet(b)
    ensures MakeTextSet(c) == MakeTextSet(d) <==> ToSet(c) == ToSet(d)
    ensures MakeSpectrum(e) == MakeSpectrum(f) <==> ToSet(e) == ToSet(f)
  {
    hide CanonicalSet, DescriptorLess, TextLess, ToSet;
    TextOrder();
    DescriptorOrder();
    CanonicalSetDecides(a, b, IntLess);
    CanonicalSetDecides(c, d, TextLess);
    CanonicalSetDecides(e, f, DescriptorLess);
  }
}
