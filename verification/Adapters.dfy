/** The adapter part of a cache key: which sets of adapters share a slot. */
module Adapters {
  import opened Bytes
  import opened ModelCache

  /** An adapter and its scale in ten-thousandths, as it is printed. */
  datatype Lora = Lora(id: string, scale: int)

  function DigitChar(d: nat): (c: char)
    requires d < 10
    ensures '0' <= c <= '9'
  {
    (48 + d) as char
  }

  function DigitsOf(n: nat): (s: string)
    ensures s != "" && forall c :: c in s ==> '0' <= c <= '9'
    ensures |s| == 1 <==> n < 10
  {
    if n < 10 then [DigitChar(n)] else DigitsOf(n / 10) + [DigitChar(n % 10)]
  }

  /** The last digits of a number, with leading zeros. */
  function Padded(n: nat, width: nat): (s: string)
    ensures |s| == width && forall c :: c in s ==> '0' <= c <= '9'
  {
    if width == 0 then "" else Padded(n / 10, width - 1) + [DigitChar(n % 10)]
  }

  function Pow10(k: nat): nat {
    if k == 0 then 1 else 10 * Pow10(k - 1)
  }

  function Abs(n: int): nat {
    if n < 0 then -n else n
  }

  /** `f"{scale:.4f}"`. */
  function PrintScale(n: int): (s: string)
    ensures '+' !in s && '@' !in s
  {
    Sign(n) + DigitsOf(Abs(n) / 10000) + ['.'] + Padded(Abs(n) % 10000, 4)
  }

  lemma {:induction false} DigitsOfInjective(a: nat, b: nat)
    requires DigitsOf(a) == DigitsOf(b)
    ensures a == b
  {
    var s, t := DigitsOf(a), DigitsOf(b);
    assert s[|s| - 1] == DigitChar(a % 10) && t[|t| - 1] == DigitChar(b % 10);
    if a >= 10 && b >= 10 {
      assert s[..|s| - 1] == DigitsOf(a / 10) && t[..|t| - 1] == DigitsOf(b / 10);
      DigitsOfInjective(a / 10, b / 10);
    }
  }

  lemma {:induction false} PaddedInjective(a: nat, b: nat, width: nat)
    requires a < Pow10(width) && b < Pow10(width) && Padded(a, width) == Padded(b, width)
    ensures a == b
  {
    if width > 0 {
      var s, t := Padded(a, width), Padded(b, width);
      assert s[width - 1] == DigitChar(a % 10) && t[width - 1] == DigitChar(b % 10);
      assert s[..width - 1] == Padded(a / 10, width - 1) && t[..width - 1] == Padded(b / 10, width - 1);
      PaddedInjective(a / 10, b / 10, width - 1);
    }
  }

  function Sign(n: int): string {
    if n < 0 then "-" else ""
  }

  lemma SignedInjective(a: int, b: int, x: nat, y: nat)
    requires Sign(a) + DigitsOf(x) == Sign(b) + DigitsOf(y)
    ensures (a < 0 <==> b < 0) && x == y
  {
    var s, t := Sign(a) + DigitsOf(x), Sign(b) + DigitsOf(y);
    assert DigitsOf(x)[0] in DigitsOf(x) && DigitsOf(y)[0] in DigitsOf(y);
    assert s[0] == '-' <==> a < 0;
    assert t[0] == '-' <==> b < 0;
    SplitEqual(Sign(a), DigitsOf(x), Sign(b), DigitsOf(y));
    DigitsOfInjective(x, y);
  }

  lemma PrintScaleInjective(a: int, b: int)
    requires PrintScale(a) == PrintScale(b)
    ensures a == b
  {
    var x, y := Abs(a), Abs(b);
    LastSplit('.', Sign(a) + DigitsOf(x / 10000), Padded(x % 10000, 4), Sign(b) + DigitsOf(y / 10000), Padded(y % 10000, 4));
    SignedInjective(a, b, x / 10000, y / 10000);
    assert Pow10(4) == 10000;
    PaddedInjective(x % 10000, y % 10000, 4);
  }

  function Item(l: Lora): string {
    l.id + ['@'] + PrintScale(l.scale)
  }

  function Join(loras: seq<Lora>): string {
    if loras == [] then ""
    else if |loras| == 1 then Item(loras[0])
    else Item(loras[0]) + ['+'] + Join(loras[1..])
  }

  predicate NoPlus(loras: seq<Lora>) {
    forall l :: l in loras ==> '+' !in l.id
  }

  lemma ItemInjective(a: Lora, b: Lora)
    requires Item(a) == Item(b)
    ensures a == b
  {
    LastSplit('@', a.id, PrintScale(a.scale), b.id, PrintScale(b.scale));
    PrintScaleInjective(a.scale, b.scale);
  }

  lemma {:induction false} JoinInjective(a: seq<Lora>, b: seq<Lora>)
    requires NoPlus(a) && NoPlus(b) && Join(a) == Join(b)
    ensures a == b
    decreases |a|
  {
    if a != [] && b != [] {
      JoinHead(a, b);
      assert a == [a[0]] + a[1..] && b == [b[0]] + b[1..];
      JoinInjective(a[1..], b[1..]);
    }
  }

  /** One item has no separator, several have. */
  lemma PlusIffSeveral(loras: seq<Lora>)
    requires loras != [] && NoPlus(loras)
    ensures '+' !in Item(loras[0]) && ('+' in Join(loras) <==> |loras| > 1)
  {
    assert loras[0] in loras;
    assert |loras| > 1 ==> Join(loras)[|Item(loras[0])|] == '+';
  }

  lemma JoinHead(a: seq<Lora>, b: seq<Lora>)
    requires a != [] && b != [] && NoPlus(a) && NoPlus(b) && Join(a) == Join(b)
    ensures a[0] == b[0] && Join(a[1..]) == Join(b[1..])
  {
    PlusIffSeveral(a);
    PlusIffSeveral(b);
    if |a| > 1 {
      FirstSplit('+', Item(a[0]), Join(a[1..]), Item(b[0]), Join(b[1..]));
    }
    ItemInjective(a[0], b[0]);
  }

  // ----- sorted -----

  /** Python's order of pairs. */
  predicate Before(a: Lora, b: Lora) {
    StringBefore(a.id, b.id) || (a.id == b.id && a.scale <= b.scale)
  }

  predicate StringBefore(a: string, b: string) {
    if b == "" then false
    else if a == "" then true
    else a[0] < b[0] || (a[0] == b[0] && StringBefore(a[1..], b[1..]))
  }

  lemma {:induction false} StringTotal(a: string, b: string)
    ensures StringBefore(a, b) || a == b || StringBefore(b, a)
    ensures !(StringBefore(a, b) && StringBefore(b, a)) && !StringBefore(a, a)
  {
    if a != "" && b != "" {
      StringTotal(a[1..], b[1..]);
      StringTotal(a[1..], a[1..]);
      assert a == [a[0]] + a[1..] && b == [b[0]] + b[1..];
    } else if a != "" {
      StringTotal(a[1..], a[1..]);
    }
  }

  lemma {:induction false} StringTrans(a: string, b: string, c: string)
    requires StringBefore(a, b) && StringBefore(b, c)
    ensures StringBefore(a, c)
  {
    if a != "" && a[0] == b[0] && b[0] == c[0] {
      StringTrans(a[1..], b[1..], c[1..]);
    }
  }

  lemma Total(a: Lora, b: Lora)
    ensures Before(a, b) || Before(b, a)
    ensures Before(a, b) && Before(b, a) ==> a == b
  {
    StringTotal(a.id, b.id);
  }

  lemma Trans(a: Lora, b: Lora, c: Lora)
    requires Before(a, b) && Before(b, c)
    ensures Before(a, c)
  {
    if StringBefore(a.id, b.id) && StringBefore(b.id, c.id) {
      StringTrans(a.id, b.id, c.id);
    }
  }

  /** `sorted(loras)`. */
  function Insert(l: Lora, sorted: seq<Lora>): seq<Lora> {
    if sorted == [] || Before(l, sorted[0]) then [l] + sorted else [sorted[0]] + Insert(l, sorted[1..])
  }

  function Sorted(loras: seq<Lora>): seq<Lora> {
    if loras == [] then [] else Insert(loras[0], Sorted(loras[1..]))
  }

  predicate InOrder(s: seq<Lora>) {
    forall i, j :: 0 <= i < j < |s| ==> Before(s[i], s[j])
  }

  lemma {:induction false} InsertSorts(l: Lora, s: seq<Lora>)
    requires InOrder(s)
    ensures InOrder(Insert(l, s)) && multiset(Insert(l, s)) == multiset(s) + multiset{l}
  {
    if s == [] {
    } else if Before(l, s[0]) {
      forall j | 0 <= j < |s|
        ensures Before(l, s[j])
      {
        if j > 0 {
          Trans(l, s[0], s[j]);
        }
      }
    } else {
      Total(l, s[0]);
      assert s == [s[0]] + s[1..];
      InsertSorts(l, s[1..]);
      FirstOfAll(s[0], l, s[1..]);
    }
  }

  lemma FirstOfAll(x: Lora, l: Lora, rest: seq<Lora>)
    requires Before(x, l) && (forall j :: 0 <= j < |rest| ==> Before(x, rest[j]))
    requires InOrder(Insert(l, rest)) && multiset(Insert(l, rest)) == multiset(rest) + multiset{l}
    ensures InOrder([x] + Insert(l, rest))
  {
    var s := Insert(l, rest);
    forall j | 0 <= j < |s|
      ensures Before(x, s[j])
    {
      assert s[j] in multiset(s);
      assert s[j] == l || s[j] in rest;
    }
  }

  lemma {:induction false} SortedSorts(loras: seq<Lora>)
    ensures InOrder(Sorted(loras)) && multiset(Sorted(loras)) == multiset(loras)
  {
    if loras != [] {
      SortedSorts(loras[1..]);
      InsertSorts(loras[0], Sorted(loras[1..]));
      assert loras == [loras[0]] + loras[1..];
    }
  }

  lemma SameLeast(a: seq<Lora>, b: seq<Lora>)
    requires a != [] && b != [] && InOrder(a) && InOrder(b) && multiset(a) == multiset(b)
    ensures a[0] == b[0]
  {
    assert a[0] in multiset(b) && b[0] in multiset(a);
    var i :| 0 <= i < |b| && b[i] == a[0];
    var j :| 0 <= j < |a| && a[j] == b[0];
    Total(a[0], b[0]);
  }

  /** Sorting forgets the order and nothing else. */
  lemma {:induction false} OrderUnique(a: seq<Lora>, b: seq<Lora>)
    requires InOrder(a) && InOrder(b) && multiset(a) == multiset(b)
    ensures a == b
  {
    assert |multiset(a)| == |a| && |multiset(b)| == |b|;
    if a != [] {
      SameLeast(a, b);
      assert a == [a[0]] + a[1..] && b == [b[0]] + b[1..];
      assert multiset(a[1..]) == multiset(a) - multiset{a[0]} && multiset(b[1..]) == multiset(b) - multiset{b[0]};
      OrderUnique(a[1..], b[1..]);
    }
  }

  function Fingerprint(loras: seq<Lora>): string {
    Join(Sorted(loras))
  }

  /** Two calls share the adapter part of their key exactly if they name the same adapters at the same printed scales. */
  lemma FingerprintIff(a: seq<Lora>, b: seq<Lora>)
    requires NoPlus(a) && NoPlus(b)
    ensures Fingerprint(a) == Fingerprint(b) <==> multiset(a) == multiset(b)
  {
    SortedSorts(a);
    SortedSorts(b);
    if Fingerprint(a) == Fingerprint(b) {
      forall l | l in Sorted(a)
        ensures '+' !in l.id
      {
        assert l in multiset(Sorted(a));
      }
      forall l | l in Sorted(b)
        ensures '+' !in l.id
      {
        assert l in multiset(Sorted(b));
      }
      JoinInjective(Sorted(a), Sorted(b));
    } else if multiset(a) == multiset(b) {
      OrderUnique(Sorted(a), Sorted(b));
    }
  }

  lemma FingerprintOne(l: Lora)
    ensures Fingerprint([l]) == Item(l)
  {
    assert [l][1..] == [] && Sorted([]) == [] && Sorted([l]) == [l];
  }

  lemma FingerprintTwo(l: Lora, m: Lora)
    requires StringBefore(l.id, m.id)
    ensures Fingerprint([l, m]) == Item(l) + ['+'] + Item(m)
  {
    assert [l, m][1..] == [m] && [m][1..] == [] && Sorted([]) == [] && Sorted([m]) == [m];
    assert Sorted([l, m]) == [l, m];
    assert Join([m]) == Item(m) && Join([l, m]) == Item(l) + ['+'] + Join([m]);
  }

  /** An id with a plus sign can pass for two adapters. */
  lemma PlusCrosses(a: string, b: string, x: int, y: int)
    requires StringBefore(a, b)
    ensures Fingerprint([Lora(a, x), Lora(b, y)]) == Fingerprint([Lora(Item(Lora(a, x)) + ['+'] + b, y)])
  {
    FingerprintTwo(Lora(a, x), Lora(b, y));
    FingerprintOne(Lora(Item(Lora(a, x)) + ['+'] + b, y));
    assert Item(Lora(a, x)) + ['+'] + (b + ['@'] + PrintScale(y)) == Item(Lora(a, x)) + ['+'] + b + ['@'] + PrintScale(y);
  }

  /** So for plain names a slot is shared exactly by the calls for one tenant, model, mode and set of adapters. */
  lemma SlotSharedIff(a: SlotName, b: SlotName, xs: seq<Lora>, ys: seq<Lora>)
    requires Spelled(a) && Spelled(b) && NoPlus(xs) && NoPlus(ys)
    requires a.loras == Fingerprint(xs) && b.loras == Fingerprint(ys)
    ensures CacheKey(a) == CacheKey(b)
            <==> a.tenant == b.tenant && a.model == b.model && a.mode == b.mode && multiset(xs) == multiset(ys)
  {
    FingerprintIff(xs, ys);
    if CacheKey(a) == CacheKey(b) {
      CacheKeyInjective(a, b);
    }
  }
}
