/** Product records and the mock record source that synthesises them from an id. */
module Records {

  /** The ISO-8601 text of one clock reading; the clock itself is an input of the model. */
  type Timestamp = string

  /** One discount record: the five columns of the discounts table. */
  datatype Record = Record(id: int, name: string, price: int, discount: int, lastUpdated: Timestamp)

  function DigitChar(d: nat): char
    requires d < 10
  {
    ('0' as int + d) as char
  }

  function DigitValue(c: char): int
  {
    c as int - '0' as int
  }

  /** The decimal digits of n, most significant first, without leading zeros. */
  function NatToString(n: nat): (s: string)
    ensures |s| > 0
    ensures forall i :: 0 <= i < |s| ==> '0' <= s[i] <= '9'
    decreases n
  {
    if n < 10 then [DigitChar(n)] else NatToString(n / 10) + [DigitChar(n % 10)]
  }

  /** Python's str() of an integer, which an f-string uses: a minus sign, then the digits. */
  function IntToString(n: int): string
  {
    if n < 0 then "-" + NatToString(-n) else NatToString(n)
  }

  /** The value of a string of decimal digits read most significant first. */
  function DecimalValue(s: string): int
    decreases |s|
  {
    if s == [] then 0 else DecimalValue(s[..|s| - 1]) * 10 + DigitValue(s[|s| - 1])
  }

  /** Reads back the canonical text IntToString produces. */
  function ParseInt(s: string): int
  {
    if |s| > 0 && s[0] == '-' then -DecimalValue(s[1..]) else DecimalValue(s)
  }

  lemma {:induction false} NatToStringRoundTrip(n: nat)
    ensures DecimalValue(NatToString(n)) == n
    decreases n
  {
    if n >= 10 {
      NatToStringRoundTrip(n / 10);
      var s := NatToString(n);
      assert s[..|s| - 1] == NatToString(n / 10);
    }
  }

  /** The decimal text of an integer determines the integer. */
  lemma IntToStringRoundTrip(n: int)
    ensures ParseInt(IntToString(n)) == n
  {
    if n < 0 {
      NatToStringRoundTrip(-n);
      var s := IntToString(n);
      assert s[1..] == NatToString(-n);
    } else {
      NatToStringRoundTrip(n);
    }
  }

  /** The display name the mock source gives product id: "Product {id}". */
  function ProductName(id: int): string
  {
    "Product " + IntToString(id)
  }

  /** Distinct ids get distinct names. */
  lemma ProductNameInjective(a: int, b: int)
    ensures ProductName(a) == ProductName(b) ==> a == b
  {
    if ProductName(a) == ProductName(b) {
      assert IntToString(a) == ProductName(a)[8..];
      assert IntToString(b) == ProductName(b)[8..];
      IntToStringRoundTrip(a);
      IntToStringRoundTrip(b);
    }
  }

  /** The record the mock source returns for one id, stamped with one clock reading. */
  function MockRecord(id: int, now: Timestamp): Record
  {
    Record(id, ProductName(id), 100 - id, id % 20, now)
  }

  /** The records for ids, the i-th one stamped with clock[i]. */
  function Fetched(ids: seq<int>, clock: seq<Timestamp>): seq<Record>
    requires |clock| == |ids|
  {
    seq(|ids|, i requires 0 <= i < |ids| => MockRecord(ids[i], clock[i]))
  }

  /** Fetching two runs of ids one after the other gives the two results one after the other. */
  lemma FetchedAppend(a: seq<int>, ca: seq<Timestamp>, b: seq<int>, cb: seq<Timestamp>)
    requires |ca| == |a| && |cb| == |b|
    ensures Fetched(a + b, ca + cb) == Fetched(a, ca) + Fetched(b, cb)
  {
    var lhs, rhs := Fetched(a + b, ca + cb), Fetched(a, ca) + Fetched(b, cb);
    assert |lhs| == |rhs|;
    forall i | 0 <= i < |lhs| ensures lhs[i] == rhs[i] {
      if i >= |a| {
        assert (a + b)[i] == b[i - |a|] && (ca + cb)[i] == cb[i - |a|];
      }
    }
  }

  /**
   * fetch_amazon_data: one record per id, in input order, with price 100 - id,
   * discount id mod 20 (always in 0..19) and name "Product {id}".
   * clock[i] is the reading of the clock taken while building the i-th record.
   */
  method FetchAmazonData(ids: seq<int>, clock: seq<Timestamp>) returns (data: seq<Record>)
    requires |clock| == |ids|
    ensures data == Fetched(ids, clock)
    ensures |data| == |ids|
    ensures forall i :: 0 <= i < |ids| ==>
      && data[i].id == ids[i]
      && data[i].name == ProductName(ids[i])
      && data[i].price == 100 - ids[i]
      && data[i].discount == ids[i] % 20
      && 0 <= data[i].discount < 20
      && data[i].lastUpdated == clock[i]
  {
    data := [];
    for i := 0 to |ids|
      invariant |data| == i
      invariant forall k :: 0 <= k < i ==> data[k] == MockRecord(ids[k], clock[k])
    {
      var response := Record(ids[i], ProductName(ids[i]), 100 - ids[i], ids[i] % 20, clock[i]);
      data := data + [response];
    }
  }
}
