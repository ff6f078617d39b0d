/** Display identity: the exact and the fuzzy comparison of freshly enumerated
    EDID attributes with a stored display, and the rewrite that keeps the serials
    of simultaneously connected displays unique. */
module DisplayIdentity {
  import opened Common

  /** What the matching functions read from a stored display: its EDID name and
      the integer entries of its info dictionary. An entry that is missing, or is
      not an `Int64`, reads as `None`. */
  datatype DisplayInfo = DisplayInfo(
    edidName: string,
    manufactureYear: Option<int>,
    serialNumber: Option<int>,
    productID: Option<int>,
    vendorID: Option<int>)

  /** The freshly enumerated attributes a stored display is compared with. The
      `manufacturer` argument of `displayInfoDictFullMatch` and
      `displayInfoDictPartialMatchScore` is ignored by both and is not modelled. */
  datatype MatchQuery = MatchQuery(
    name: string,
    serial: int,
    productID: int,
    manufactureYear: int,
    vendorID: Option<int>)

  // ---------------------------------------------------------------------------
  // Exact comparison (`displayInfoDictFullMatch`)

  /** True when all four integer entries are present and either name, year,
      serial and product id are all equal, or a vendor id is given and equals
      the stored one. */
  predicate FullMatch(d: DisplayInfo, q: MatchQuery): (r: bool)
    ensures (d.manufactureYear.None? || d.serialNumber.None? || d.productID.None? || d.vendorID.None?) ==> !r
    ensures r ==> d.edidName == q.name || q.vendorID.Some?
  {
    match (d.manufactureYear, d.serialNumber, d.productID, d.vendorID)
    case (Some(year), Some(serial), Some(productID), Some(vendorID)) =>
      (d.edidName == q.name && year == q.manufactureYear && serial == q.serial && productID == q.productID)
      || (q.vendorID.Some? && vendorID == q.vendorID.value)
    case _ => false
  }

  /** A stored display lacking any of the four entries never fully matches; with
      all four present, equality of name, year, serial and product id makes a
      full match, and so does equality of the vendor id alone when one is given. */
  lemma FullMatchCases(d: DisplayInfo, q: MatchQuery)
    ensures (d.manufactureYear.None? || d.serialNumber.None? || d.productID.None? || d.vendorID.None?)
              ==> !FullMatch(d, q)
    ensures d.manufactureYear.Some? && d.serialNumber.Some? && d.productID.Some? && d.vendorID.Some? ==>
              (FullMatch(d, q) <==>
                 (d.edidName == q.name && d.manufactureYear == Some(q.manufactureYear) &&
                  d.serialNumber == Some(q.serial) && d.productID == Some(q.productID))
                 || (q.vendorID.Some? && d.vendorID == q.vendorID))
  {
  }

  /** The query made of a display's own attributes. */
  function OwnAttributes(d: DisplayInfo, withVendor: bool): (q: MatchQuery)
    requires d.manufactureYear.Some? && d.serialNumber.Some? && d.productID.Some? && d.vendorID.Some?
    ensures q.name == d.edidName && Some(q.serial) == d.serialNumber && Some(q.productID) == d.productID
    ensures Some(q.manufactureYear) == d.manufactureYear && (withVendor <==> q.vendorID.Some?)
  {
    MatchQuery(d.edidName, d.serialNumber.value, d.productID.value, d.manufactureYear.value,
               if withVendor then d.vendorID else None)
  }

  /** A display with a complete info dictionary fully matches its own attributes. */
  lemma FullMatchOwnAttributes(d: DisplayInfo, withVendor: bool)
    requires d.manufactureYear.Some? && d.serialNumber.Some? && d.productID.Some? && d.vendorID.Some?
    ensures FullMatch(d, OwnAttributes(d, withVendor))
  {
  }

  // ---------------------------------------------------------------------------
  // Fuzzy comparison (`displayInfoDictPartialMatchScore`)

  function NameScore(d: DisplayInfo, q: MatchQuery): (r: int)
    ensures 0 <= r <= 1 && (r == 1 <==> d.edidName == q.name)
  {
    if d.edidName == q.name then 1 else 0
  }

  /** +1 for an equal year, counted only when the year entry is present. */
  function YearScore(d: DisplayInfo, q: MatchQuery): (r: int)
    ensures 0 <= r <= 1 && (r == 1 <==> d.manufactureYear == Some(q.manufactureYear))
  {
    match d.manufactureYear
    case Some(year) => if year == q.manufactureYear then 1 else 0
    case None => 0
  }

  /** `3 - |Δserial|` when the stored serial is within 2 of the given one. */
  function SerialScore(d: DisplayInfo, q: MatchQuery): (r: int)
    ensures 0 <= r <= 3
    ensures r == 3 <==> d.serialNumber == Some(q.serial)
    ensures r > 0 <==> d.serialNumber.Some? && Abs(d.serialNumber.value - q.serial) < 3
    ensures d.serialNumber.Some? && Abs(d.serialNumber.value - q.serial) < 3 ==>
              r == 3 - Abs(d.serialNumber.value - q.serial)
  {
    match d.serialNumber
    case Some(serial) => if Abs(serial - q.serial) < 3 then 3 - Abs(serial - q.serial) else 0
    case None => 0
  }

  /** The product-id term as written: guarded by the product-id distance, but
      the points are `3 - |productID_d - serial|`, the distance to the SERIAL. */
  function ProductIDScore(d: DisplayInfo, q: MatchQuery): (r: int)
    ensures r <= 3
    ensures r != 0 ==> d.productID.Some? && Abs(d.productID.value - q.productID) < 3
    ensures d.productID.Some? && Abs(d.productID.value - q.productID) < 3 ==>
              r + Abs(d.productID.value - q.serial) == 3
  {
    match d.productID
    case Some(productID) => if Abs(productID - q.productID) < 3 then 3 - Abs(productID - q.serial) else 0
    case None => 0
  }

  /** `3 - |Δvendor|`, counted only when a vendor id is given and stored. */
  function VendorScore(d: DisplayInfo, q: MatchQuery): (r: int)
    ensures 0 <= r <= 3
    ensures q.vendorID.None? ==> r == 0
    ensures r == 3 <==> q.vendorID.Some? && d.vendorID == q.vendorID
    ensures r > 0 <==> q.vendorID.Some? && d.vendorID.Some? && Abs(d.vendorID.value - q.vendorID.value) < 3
    ensures q.vendorID.Some? && d.vendorID.Some? && Abs(d.vendorID.value - q.vendorID.value) < 3 ==>
              r == 3 - Abs(d.vendorID.value - q.vendorID.value)
  {
    match (q.vendorID, d.vendorID)
    case (Some(vendorID), Some(stored)) =>
      if Abs(stored - vendorID) < 3 then 3 - Abs(stored - vendorID) else 0
    case _ => 0
  }

  /** `displayInfoDictPartialMatchScore`: the sum of the five terms. */
  function PartialMatchScore(d: DisplayInfo, q: MatchQuery): (r: int)
    ensures r <= 11
  {
    NameScore(d, q) + YearScore(d, q) + SerialScore(d, q) + ProductIDScore(d, q) + VendorScore(d, q)
  }

  /** A stored display that agrees with every attribute, vendor included, scores
      the eight points of name, year, serial and vendor, plus a product-id term
      that is `3 - |productID - serial|` and so depends on how far apart the
      product id and the serial are. */
  lemma AgreeingScore(d: DisplayInfo, q: MatchQuery)
    requires d.edidName == q.name && d.manufactureYear == Some(q.manufactureYear)
    requires d.serialNumber == Some(q.serial) && d.productID == Some(q.productID)
    requires q.vendorID.Some? && d.vendorID == q.vendorID
    ensures PartialMatchScore(d, q) == 11 - Abs(q.productID - q.serial)
    ensures FullMatch(d, q)
  {
  }

  /** Without a product-id entry the score is between 0 and 8, and it reaches 8
      only for equal name, year, serial and vendor. */
  lemma ScoreWithoutProductID(d: DisplayInfo, q: MatchQuery)
    requires d.productID.None?
    ensures 0 <= PartialMatchScore(d, q) <= 8
    ensures PartialMatchScore(d, q) == 8 <==>
              d.edidName == q.name && d.manufactureYear == Some(q.manufactureYear) &&
              d.serialNumber == Some(q.serial) && q.vendorID.Some? && d.vendorID == q.vendorID
  {
  }

  /** Because the product-id term measures the distance to the serial, a stored
      display that agrees with every attribute it has (and only lacks a vendor
      entry, so it is no full match) is outscored by one that agrees only on the
      name. */
  lemma ProductIDTermMisranks()
    ensures var q := MatchQuery("LG Ultra HD", 314041, 23305, 2017, None);
            var agreeing := DisplayInfo("LG Ultra HD", Some(2017), Some(314041), Some(23305), None);
            var nameOnly := DisplayInfo("LG Ultra HD", None, None, None, None);
            !FullMatch(agreeing, q) &&
            PartialMatchScore(agreeing, q) < 0 < PartialMatchScore(nameOnly, q)
  {
    var q := MatchQuery("LG Ultra HD", 314041, 23305, 2017, None);
    var agreeing := DisplayInfo("LG Ultra HD", Some(2017), Some(314041), Some(23305), None);
    assert ProductIDScore(agreeing, q) == 3 - (314041 - 23305);
  }

  // ---------------------------------------------------------------------------
  // Serial uniqueness (the rewrite in `getDisplays`)

  predicate Distinct<T(==)>(s: seq<T>)
  {
    forall i, j :: 0 <= i < j < |s| ==> s[i] != s[j]
  }

  function Elements<T>(s: seq<T>): set<T>
  {
    set x | x in s
  }

  function DigitChar(d: nat): (c: char)
    requires d < 10
    ensures '0' <= c <= '9'
  {
    (48 + d) as char
  }

  /** Swift's decimal rendering of a display id, `"\(id)"`. */
  function DecimalString(n: nat): (s: string)
    ensures |s| > 0
    ensures forall i :: 0 <= i < |s| ==> '0' <= s[i] <= '9'
  {
    if n < 10 then [DigitChar(n)] else DecimalString(n / 10) + [DigitChar(n % 10)]
  }

  /** Different ids render as different strings. */
  lemma {:induction false} DecimalStringInjective(a: nat, b: nat)
    requires DecimalString(a) == DecimalString(b)
    ensures a == b
  {
    var sa, sb := DecimalString(a), DecimalString(b);
    if a < 10 && b < 10 {
      assert sa[0] == DigitChar(a) && sb[0] == DigitChar(b);
    } else if a >= 10 && b >= 10 {
      assert sa[|sa| - 1] == DigitChar(a % 10) && sb[|sb| - 1] == DigitChar(b % 10);
      assert DecimalString(a / 10) == sa[..|sa| - 1] == sb[..|sb| - 1] == DecimalString(b / 10);
      DecimalStringInjective(a / 10, b / 10);
    }
  }

  /** The suffixed serial `"\(serial)-\(id)"`. */
  function SuffixedSerial(serial: string, id: nat): string
  {
    serial + "-" + DecimalString(id)
  }

  /** Two suffixed serials are equal only when their ids are: the text after the
      last dash is the id's digits. */
  lemma SuffixedSerialsDiffer(s1: string, id1: nat, s2: string, id2: nat)
    requires SuffixedSerial(s1, id1) == SuffixedSerial(s2, id2)
    ensures id1 == id2
  {
    var a, b := SuffixedSerial(s1, id1), SuffixedSerial(s2, id2);
    var d1, d2 := DecimalString(id1), DecimalString(id2);
    assert a[|s1|] == '-' && b[|s2|] == '-';
    assert forall k :: |s1| < k < |a| ==> a[k] == d1[k - |s1| - 1];
    assert forall k :: |s2| < k < |b| ==> b[k] == d2[k - |s2| - 1];
    assert |s1| == |s2|;
    assert d1 == a[|a| - |d1|..] == b[|b| - |d2|..] == d2;
    DecimalStringInjective(id1, id2);
  }

  lemma {:induction false} DistinctByCount<T>(s: seq<T>)
    ensures |Elements(s)| <= |s|
    ensures |Elements(s)| == |s| <==> Distinct(s)
  {
    if s != [] {
      var rest := s[1..];
      DistinctByCount(rest);
      assert Elements(s) == {s[0]} + Elements(rest);
      if s[0] in rest {
        assert Elements(s) == Elements(rest);
        var k :| 0 <= k < |rest| && rest[k] == s[0];
        assert s[0] == s[k + 1];
      } else {
        assert Distinct(s) <==> Distinct(rest);
      }
    }
  }

  /** The serial rewrite of `getDisplays`: when two serials collide, every serial
      is suffixed with the display id it is zipped with (`zip` stops at the
      shorter sequence); otherwise the serials are kept. The result has no
      duplicates whenever the ids have none. */
  function UniqueSerials(serials: seq<string>, ids: seq<nat>): (r: seq<string>)
    ensures |Elements(serials)| == |serials| ==> r == serials
    ensures |Elements(serials)| != |serials| ==>
              |r| == (if |serials| < |ids| then |serials| else |ids|) &&
              forall i :: 0 <= i < |r| ==> r[i] == SuffixedSerial(serials[i], ids[i])
    ensures Distinct(ids) ==> Distinct(r)
  {
    if |Elements(serials)| == |serials| then
      DistinctByCount(serials);
      serials
    else
      var n := if |serials| < |ids| then |serials| else |ids|;
      var r := seq(n, i requires 0 <= i < n => SuffixedSerial(serials[i], ids[i]));
      SuffixedDistinct(serials, ids, r);
      r
  }

  lemma SuffixedDistinct(serials: seq<string>, ids: seq<nat>, r: seq<string>)
    requires |r| <= |serials| && |r| <= |ids|
    requires forall i :: 0 <= i < |r| ==> r[i] == SuffixedSerial(serials[i], ids[i])
    ensures Distinct(ids) ==> Distinct(r)
  {
    if Distinct(ids) {
      forall i, j | 0 <= i < j < |r|
        ensures r[i] != r[j]
      {
        if r[i] == r[j] {
          SuffixedSerialsDiffer(serials[i], ids[i], serials[j], ids[j]);
        }
      }
    }
  }
}
