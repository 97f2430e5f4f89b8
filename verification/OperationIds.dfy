/** Operation identifiers `op-YYYYMMDD-NNN`: how the next one is allocated and why it is new. */
module OperationIds {
  import opened Options
  import opened Texts
  import opened Journal
  import Bytes

  const LAST_NUMBER: nat := 999_999_999

  /** The `:03d` format: at least three digits. */
  function Padded(n: nat): string {
    if n < 10 then "00" + Decimal(n) else if n < 100 then "0" + Decimal(n) else Decimal(n)
  }

  function OperationName(day: string, n: nat): string {
    "op-" + day + "-" + Padded(n)
  }

  /** The number of a name that belongs to that day, as the allocation pattern reads it. */
  function NumberOf(name: string, day: string): Option<nat> {
    var head := "op-" + day + "-";
    if |head| <= |name| && name[..|head|] == head then
      var digits := name[|head|..];
      if 3 <= |digits| <= 9 && AllDigits(digits) then Some(Value(digits)) else None
    else None
  }

  predicate IsHighest(names: set<string>, day: string, h: nat) {
    && (h > 0 ==> exists name :: name in names && NumberOf(name, day) == Some(h))
    && (forall name :: name in names && NumberOf(name, day).Some? ==> NumberOf(name, day).value <= h)
  }

  lemma HighestIsUnique(names: set<string>, day: string, h: nat, k: nat)
    requires IsHighest(names, day, h) && IsHighest(names, day, k)
    ensures h == k
  {
    hide NumberOf;
  }

  /** Scans the directory listing for the highest number used that day. */
  method TodayHighest(listing: seq<string>, day: string) returns (highest: nat)
    ensures IsHighest((set n | n in listing), day, highest)
  {
    highest := 0;
    for i := 0 to |listing|
      invariant highest > 0 ==> exists k :: 0 <= k < i && NumberOf(listing[k], day) == Some(highest)
      invariant forall k :: 0 <= k < i && NumberOf(listing[k], day).Some? ==> NumberOf(listing[k], day).value <= highest
    {
      var n := NumberOf(listing[i], day);
      if n.Some? && n.value > highest {
        highest := n.value;
      }
    }
  }

  lemma {:induction false} DecimalLength(n: nat, bound: nat)
    requires n < Bytes.Power(10, bound) && bound >= 1
    ensures |Decimal(n)| <= bound
  {
    if n >= 10 {
      DecimalLength(n / 10, bound - 1);
    }
  }

  lemma Powers()
    ensures Bytes.Power(10, 1) == 10 && Bytes.Power(10, 2) == 100 && Bytes.Power(10, 3) == 1000 && Bytes.Power(10, 9) == LAST_NUMBER + 1
  {
    assert Bytes.Power(10, 5) == 100_000;
  }

  lemma {:induction false} DecimalIsLong(n: nat, k: nat)
    requires n >= Bytes.Power(10, k)
    ensures |Decimal(n)| > k
  {
    if k > 0 {
      DecimalIsLong(n / 10, k - 1);
    }
  }

  lemma PaddedLength(n: nat)
    requires n <= LAST_NUMBER
    ensures 3 <= |Padded(n)| <= 9 && (n < 1000 ==> |Padded(n)| == 3)
  {
    hide Bytes.Power, Decimal;
    Powers();
    DecimalLength(n, if n < 10 then 1 else if n < 100 then 2 else if n < 1000 then 3 else 9);
    if n >= 100 {
      DecimalIsLong(n, 2);
    } else if n >= 10 {
      DecimalIsLong(n, 1);
    }
  }

  lemma PaddedReadsBack(n: nat)
    ensures AllDigits(Padded(n)) && Value(Padded(n)) == n
  {
    var d := Decimal(n);
    DecimalReadsBack(n);
    hide Decimal, Value, AllDigits;
    if n < 10 {
      LeadingZeros("00", d);
    } else if n < 100 {
      LeadingZeros("0", d);
    }
  }

  /** Reading an allocated name back gives the number it was made from. */
  lemma NameReadsBack(day: string, n: nat)
    requires n <= LAST_NUMBER
    ensures NumberOf(OperationName(day, n), day) == Some(n)
    ensures n < 1000 ==> |OperationName(day, n)| == |day| + 7
  {
    hide Padded, Value, AllDigits;
    PaddedReadsBack(n);
    PaddedLength(n);
    var head := "op-" + day + "-";
    assert OperationName(day, n)[|head|..] == Padded(n);
  }

  /** The identifier after the highest one in use names no existing entry. */
  lemma AllocatedIsFresh(names: set<string>, day: string, highest: nat)
    requires IsHighest(names, day, highest) && highest + 1 <= LAST_NUMBER
    ensures OperationName(day, highest + 1) !in names
  {
    NameReadsBack(day, highest + 1);
  }
}
