/**
 Transmitter identifiers: `FR-` followed by the generation counter,
 zero-padded to three digits (`f"FR-{emitter_id:03d}"`).
 */
module Ids {
  import opened Text

  datatype Option<T> = None | Some(value: T)

  const Prefix: string := "FR-"

  /** The identifier given to the transmitter generated with counter value `n`. */
  function FormatId(n: nat): string
  {
    Prefix + ZeroPad(n, 3)
  }

  /** Reads the counter back out of an identifier; `None` for anything not of the form `FR-<digits>`. */
  function ParseId(s: string): Option<nat>
  {
    if |s| > |Prefix| && s[..|Prefix|] == Prefix && AllDigits(s[|Prefix|..])
    then Some(DecimalValue(s[|Prefix|..]))
    else None
  }

  /** Every identifier reads back as the counter it was made from. */
  lemma IdRoundTrip(n: nat)
    ensures ParseId(FormatId(n)) == Some(n)
  {
    var s := FormatId(n);
    assert s[..|Prefix|] == Prefix;
    assert s[|Prefix|..] == ZeroPad(n, 3);
    ZeroPadValue(n, 3);
  }

  /** Distinct counters give distinct identifiers (for every counter, not only up to 999). */
  lemma IdInjective(i: nat, j: nat)
    ensures FormatId(i) == FormatId(j) <==> i == j
  {
    IdRoundTrip(i);
    IdRoundTrip(j);
  }

  /** Counters up to 999 give six-character identifiers `FR-NNN`. */
  lemma IdShape(n: nat)
    requires n <= 999
    ensures |FormatId(n)| == 6
    ensures FormatId(n)[..3] == Prefix
    ensures AllDigits(FormatId(n)[3..])
  {
    ZeroPadOrder(n, n, 3);
    assert FormatId(n)[3..] == ZeroPad(n, 3);
  }

  /** Up to 999, sorting identifiers as strings is sorting by counter. */
  lemma IdOrder(i: nat, j: nat)
    requires i <= 999 && j <= 999
    ensures LexLe(FormatId(i), FormatId(j)) <==> i <= j
  {
    ZeroPadOrder(i, j, 3);
    LexLeConcat(Prefix, ZeroPad(i, 3), Prefix, ZeroPad(j, 3));
  }
}
