/** The names under which batches and the other writers store their rows. */
module BatchNames {

  predicate Digits(s: string) {
    forall i :: 0 <= i < |s| ==> '0' <= s[i] <= '9'
  }

  function Digit(d: nat): (c: char)
    requires d < 10
    ensures '0' <= c <= '9' && (c - '0') as nat == d
  {
    "0123456789"[d]
  }

  function Decimal(n: nat): (s: string)
    ensures s != [] && Digits(s)
  {
    if n < 10 then [Digit(n)] else Decimal(n / 10) + [Digit(n % 10)]
  }

  lemma {:induction false} DecimalInjective(m: nat, n: nat)
    requires Decimal(m) == Decimal(n)
    ensures m == n
  {
    var s, t := Decimal(m), Decimal(n);
    assert s[|s| - 1] == Digit(m % 10) && t[|t| - 1] == Digit(n % 10);
    if m >= 10 && n >= 10 {
      assert s[..|s| - 1] == Decimal(m / 10) && t[..|t| - 1] == Decimal(n / 10);
      DecimalInjective(m / 10, n / 10);
    }
  }

  /** The number a string of digits denotes. */
  function Number(s: string): nat
    requires Digits(s)
  {
    if s == [] then 0 else Number(s[..|s| - 1]) * 10 + (s[|s| - 1] - '0') as nat
  }

  /** A number's decimal form denotes it. */
  lemma {:induction false} DecimalDenotes(n: nat)
    ensures Number(Decimal(n)) == n
  {
    var s := Decimal(n);
    assert s[|s| - 1] == Digit(n % 10);
    if n >= 10 {
      assert s[..|s| - 1] == Decimal(n / 10);
      DecimalDenotes(n / 10);
    } else {
      assert s[..0] == [];
    }
  }

  /** A transaction of the batch handler. */
  function TxHash(batch: nat, i: nat): string {
    "batch_" + Decimal(batch) + ("_op_" + Decimal(i))
  }

  /** A listing of the batch handler, and of the queue's processor for its own batches. */
  function ListingName(batch: nat, i: nat): string {
    "batch_listing_" + Decimal(batch) + ("_" + Decimal(i))
  }

  /** A transaction of the queue's processor: the same name with a time stamp behind it. */
  function QueueHash(batch: nat, i: nat, stamp: nat): string {
    "batch_" + Decimal(batch) + ("_op_" + (Decimal(i) + ("_" + Decimal(stamp))))
  }

  const PLACEHOLDER_HASH := "tx_hash_placeholder"
  const FIRST_LISTING := "listing_1"

  function ApprovalHash(uuid: string): string {
    "approval-" + uuid
  }

  lemma SuffixInjective(prefix: string, s: string, t: string)
    requires prefix + s == prefix + t
    ensures s == t
  {
    assert (prefix + s)[|prefix|..] == s && (prefix + t)[|prefix|..] == t;
  }

  /** A number ends where the first other character stands. */
  lemma NumberEnds(d: string, s: string, e: string, t: string)
    requires Digits(d) && Digits(e) && d + s == e + t
    requires s != [] && s[0] == '_' && t != [] && t[0] == '_'
    ensures d == e && s == t
  {
    var all := d + s;
    assert all[|d|] == '_' && all[|e|] == '_';
    assert forall i :: 0 <= i < |d| ==> all[i] == d[i];
    assert forall i :: 0 <= i < |e| ==> all[i] == e[i];
    assert |d| == |e|;
    assert d == all[..|d|] && e == all[..|e|];
    SuffixInjective(d, s, t);
  }

  lemma TwoParts(prefix: string, middle: string, d: string, s: string, e: string, t: string)
    requires Digits(d) && Digits(e) && middle != [] && middle[0] == '_'
    requires prefix + d + (middle + s) == prefix + e + (middle + t)
    ensures d == e && s == t
  {
    var x, y := middle + s, middle + t;
    assert prefix + (d + x) == prefix + d + x && prefix + (e + y) == prefix + e + y;
    SuffixInjective(prefix, d + x, e + y);
    NumberEnds(d, x, e, y);
    SuffixInjective(middle, s, t);
  }

  /** `prefix`, a number, `middle`, a number: both numbers can be read back. */
  lemma TwoNumbers(prefix: string, middle: string, b: nat, i: nat, c: nat, j: nat)
    requires middle != [] && middle[0] == '_'
    requires prefix + Decimal(b) + (middle + Decimal(i)) == prefix + Decimal(c) + (middle + Decimal(j))
    ensures b == c && i == j
  {
    TwoParts(prefix, middle, Decimal(b), Decimal(i), Decimal(c), Decimal(j));
    DecimalInjective(b, c);
    DecimalInjective(i, j);
  }

  /** No two operations share a name, neither within a batch nor across batches. */
  lemma NamesInjective(b: nat, i: nat, c: nat, j: nat)
    ensures TxHash(b, i) == TxHash(c, j) ==> b == c && i == j
    ensures ListingName(b, i) == ListingName(c, j) ==> b == c && i == j
  {
    if TxHash(b, i) == TxHash(c, j) {
      TwoNumbers("batch_", "_op_", b, i, c, j);
    }
    if ListingName(b, i) == ListingName(c, j) {
      TwoNumbers("batch_listing_", "_", b, i, c, j);
    }
  }

  lemma MarkIsNoDigit(d: string, s: string)
    ensures !Digits(d + ("_" + s))
  {
    assert (d + ("_" + s))[|d|] == '_';
  }

  /** The processor's transactions never carry a name of the handler's. */
  lemma QueueHashDistinct(b: nat, i: nat, stamp: nat, c: nat, j: nat)
    ensures QueueHash(b, i, stamp) != TxHash(c, j)
  {
    var s := Decimal(i) + ("_" + Decimal(stamp));
    MarkIsNoDigit(Decimal(i), Decimal(stamp));
    if QueueHash(b, i, stamp) == TxHash(c, j) {
      TwoParts("batch_", "_op_", Decimal(b), s, Decimal(c), Decimal(j));
    }
  }

  /** Nor do the rows the other handlers write. */
  lemma PlainNamesDistinct(uuid: string, b: nat, i: nat)
    ensures PLACEHOLDER_HASH != TxHash(b, i) && ApprovalHash(uuid) != TxHash(b, i)
    ensures FIRST_LISTING != ListingName(b, i)
  {
    assert TxHash(b, i)[0] == 'b' && ListingName(b, i)[0] == 'b';
    assert PLACEHOLDER_HASH[0] == 't' && ApprovalHash(uuid)[0] == 'a' && FIRST_LISTING[0] == 'l';
  }
}
