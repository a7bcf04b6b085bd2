/** The name under which an SA holds its lease: its string identity, or a placeholder. */
module Naming {
  import opened Hosts

  /** What the allocator learns about an SA: its number and, when it has one, its string identity. */
  datatype Sa = Sa(uid: u32, identity: Option<string>)

  const DIGITS := "0123456789"
  const ANON := "anon-"
  const ANON_BUF: nat := 32

  /** `%u`. */
  function Decimal(n: nat): (s: string)
    ensures s != []
  {
    (if n < 10 then [] else Decimal(n / 10)) + [DIGITS[n % 10]]
  }

  /** `snprintf` into a buffer of `size` bytes. */
  function Snprintf(size: nat, s: string): string
    requires size > 0
  {
    if |s| < size then s else s[..size - 1]
  }

  /** `strncmp(name, "anon-", 5) == 0`. */
  predicate IsAnon(name: string) {
    |name| >= |ANON| && name[..|ANON|] == ANON
  }

  function EffectiveName(sa: Sa): string {
    match sa.identity
    case Some(name) => name
    case None => Snprintf(ANON_BUF, ANON + Decimal(sa.uid))
  }

  lemma {:induction false} DecimalInjective(m: nat, n: nat)
    requires Decimal(m) == Decimal(n)
    ensures m == n
  {
    var s, t := Decimal(m), Decimal(n);
    assert s[|s| - 1] == t[|t| - 1];
    DigitsDiffer(m % 10, n % 10);
    assert s[..|s| - 1] == if m < 10 then [] else Decimal(m / 10);
    assert t[..|t| - 1] == if n < 10 then [] else Decimal(n / 10);
    if m >= 10 && n >= 10 {
      DecimalInjective(m / 10, n / 10);
    }
  }

  lemma DigitsDiffer(i: nat, j: nat)
    requires i < 10 && j < 10
    ensures DIGITS[i] == DIGITS[j] <==> i == j
  {
  }

  /** 10 to the power `k`. */
  function Pow10(k: nat): nat {
    if k == 0 then 1 else 10 * Pow10(k - 1)
  }

  lemma {:induction false} DecimalLength(n: nat, k: nat)
    requires k > 0 && n < Pow10(k)
    ensures |Decimal(n)| <= k
  {
    if n >= 10 {
      DecimalLength(n / 10, k - 1);
    }
  }

  /** The number that a string of decimal digits stands for. */
  function Value(s: string): int {
    if s == [] then 0 else 10 * Value(s[..|s| - 1]) + (s[|s| - 1] as int - '0' as int)
  }

  /** What is printed are decimal digits, without a leading zero, and they read as the number. */
  lemma {:induction false} DecimalReads(n: nat)
    ensures Value(Decimal(n)) == n
    ensures forall c | c in Decimal(n) :: '0' <= c <= '9'
    ensures n > 0 ==> Decimal(n)[0] != '0'
  {
    var s := Decimal(n);
    DigitIs(n % 10);
    assert s[..|s| - 1] == if n < 10 then [] else Decimal(n / 10);
    if n >= 10 {
      DecimalReads(n / 10);
    }
  }

  lemma DigitIs(i: nat)
    requires i < 10
    ensures DIGITS[i] as int == '0' as int + i
  {
  }

  /** A name passes for a placeholder exactly when its first five characters are those. */
  lemma AnonIs(name: string)
    ensures IsAnon(name) <==> |name| >= 5 && forall i | 0 <= i < 5 :: name[i] == "anon-"[i]
  {
    if |name| >= 5 {
      assert name[..5] == "anon-" <==> forall i | 0 <= i < 5 :: name[..5][i] == "anon-"[i];
    }
  }

  /** The name of an SA: its identity, as it stands; without one `anon-` and the digits of its uid. */
  lemma NameIs(sa: Sa)
    ensures sa.identity.Some? ==> EffectiveName(sa) == sa.identity.value
    ensures sa.identity.None? ==> EffectiveName(sa) == "anon-" + Decimal(sa.uid)
  {
    if sa.identity.None? {
      PlaceholderFits(sa);
    }
  }

  /** The placeholder always fits its buffer, and is recognised as one. */
  lemma PlaceholderFits(sa: Sa)
    requires sa.identity.None?
    ensures EffectiveName(sa) == ANON + Decimal(sa.uid)
    ensures IsAnon(EffectiveName(sa))
  {
    assert Pow10(5) == 100000;
    assert Pow10(8) == 100000000;
    assert Pow10(10) == 10000000000;
    DecimalLength(sa.uid, 10);
  }

  /** Exactly when two SAs hold their leases under one name: anonymous SAs only when they are the
      same SA, and an anonymous SA with an identified one only when the latter calls itself by the
      placeholder of the former. */
  lemma NamesCollide(a: Sa, b: Sa)
    ensures EffectiveName(a) == EffectiveName(b) <==>
              match (a.identity, b.identity)
              case (Some(m), Some(n)) => m == n
              case (None, None) => a.uid == b.uid
              case (Some(m), None) => m == ANON + Decimal(b.uid)
              case (None, Some(n)) => n == ANON + Decimal(a.uid)
  {
    if a.identity.None? {
      PlaceholderFits(a);
    }
    if b.identity.None? {
      PlaceholderFits(b);
    }
    if a.identity.None? && b.identity.None? && EffectiveName(a) == EffectiveName(b) {
      assert (ANON + Decimal(a.uid))[|ANON|..] == Decimal(a.uid);
      assert (ANON + Decimal(b.uid))[|ANON|..] == Decimal(b.uid);
      DecimalInjective(a.uid, b.uid);
    }
  }
}
