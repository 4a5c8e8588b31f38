/** Names of the Redis lists that hold a topic's messages, and the order in
    which the publisher's garbage collector compares them. */
module KeyNames {
  /** Order of Python strings: first difference decides, a proper prefix is smaller. */
  predicate Less(s: string, t: string) {
    if t == [] then false
    else if s == [] then true
    else if s[0] != t[0] then s[0] < t[0]
    else Less(s[1..], t[1..])
  }

  function Pow16(w: nat): (p: nat)
    ensures p >= 1
  {
    if w == 0 then 1 else 16 * Pow16(w - 1)
  }

  function HexDigit(d: nat): char
    requires d < 16
  {
    if d < 10 then ('0' as int + d) as char else ('A' as int + d - 10) as char
  }

  /** The w least significant hexadecimal digits of n. */
  function Digits(n: nat, w: nat): (s: string)
    ensures |s| == w
  {
    if w == 0 then [] else Digits(n / 16, w - 1) + [HexDigit(n % 16)]
  }

  function NumDigits(n: nat): (w: nat)
    ensures w >= 1 && n < Pow16(w)
  {
    if n < 16 then 1 else 1 + NumDigits(n / 16)
  }

  const MIN_WIDTH := 13

  /** Width used by the format {:013X}: never truncates, pads with zeros. */
  function Width(n: nat): (w: nat)
    ensures n < Pow16(w) && w >= MIN_WIDTH
  {
    if NumDigits(n) <= MIN_WIDTH then
      PowMonotone(NumDigits(n), MIN_WIDTH);
      MIN_WIDTH
    else NumDigits(n)
  }

  function QueuePrefix(topic: string): string {
    "mm:topic:" + topic + ":queue:"
  }

  function QueueName(topic: string, n: nat): string {
    QueuePrefix(topic) + Digits(n, Width(n))
  }

  lemma PowMonotone(v: nat, w: nat)
    requires v <= w
    ensures Pow16(v) <= Pow16(w)
  {
    if v < w {
      PowMonotone(v, w - 1);
    }
  }

  lemma {:induction false} LessIrreflexive(s: string)
    ensures !Less(s, s)
  {
    if s != [] {
      LessIrreflexive(s[1..]);
    }
  }

  lemma {:induction false} LessPrefix(p: string, s: string, t: string)
    ensures Less(p + s, p + t) <==> Less(s, t)
  {
    if p == [] {
      assert p + s == s && p + t == t;
    } else {
      assert (p + s)[1..] == p[1..] + s && (p + t)[1..] == p[1..] + t;
      LessPrefix(p[1..], s, t);
    }
  }

  lemma {:induction false} LessAppend(s: string, t: string, c: char, d: char)
    requires |s| == |t|
    ensures Less(s + [c], t + [d]) <==> Less(s, t) || (s == t && c < d)
  {
    if s == [] {
      assert s + [c] == [c] && t + [d] == [d];
    } else {
      assert (s + [c])[1..] == s[1..] + [c] && (t + [d])[1..] == t[1..] + [d];
      LessAppend(s[1..], t[1..], c, d);
      assert s == [s[0]] + s[1..] && t == [t[0]] + t[1..];
    }
  }

  /** Equal-width digit strings are ordered, and told apart, as the numbers are. */
  lemma {:induction false} DigitsOrder(a: nat, b: nat, w: nat)
    requires a < Pow16(w) && b < Pow16(w)
    ensures Less(Digits(a, w), Digits(b, w)) <==> a < b
    ensures Digits(a, w) == Digits(b, w) ==> a == b
  {
    if w > 0 {
      DigitsOrder(a / 16, b / 16, w - 1);
      var s, t := Digits(a / 16, w - 1), Digits(b / 16, w - 1);
      LessAppend(s, t, HexDigit(a % 16), HexDigit(b % 16));
      assert Digits(a, w)[..w - 1] == s && Digits(b, w)[..w - 1] == t;
      assert Digits(a, w)[w - 1] == HexDigit(a % 16) && Digits(b, w)[w - 1] == HexDigit(b % 16);
    }
  }

  /** Two lists of a topic never share a name, however large the topic grows. */
  lemma QueueNameInjective(topic: string, a: nat, b: nat)
    requires QueueName(topic, a) == QueueName(topic, b)
    ensures a == b
  {
    var p := QueuePrefix(topic);
    assert QueueName(topic, a)[|p|..] == Digits(a, Width(a));
    assert QueueName(topic, b)[|p|..] == Digits(b, Width(b));
    DigitsOrder(a, b, Width(a));
  }

  lemma NarrowWidth(n: nat, w: nat)
    requires n < Pow16(w) && w >= 1
    ensures NumDigits(n) <= w
  {
    if n >= 16 {
      NarrowWidth(n / 16, w - 1);
    }
  }

  lemma WidthIs(n: nat, w: nat)
    requires w >= MIN_WIDTH && n < Pow16(w) && (w > MIN_WIDTH ==> Pow16(w - 1) <= n)
    ensures Width(n) == w
  {
    NarrowWidth(n, w);
    if NumDigits(n) < w && w > MIN_WIDTH {
      PowMonotone(NumDigits(n), w - 1);
      assert false;
    }
  }

  lemma SameWidthOrder(topic: string, a: nat, b: nat)
    requires Width(a) == Width(b)
    ensures Less(QueueName(topic, a), QueueName(topic, b)) <==> a < b
  {
    DigitsOrder(a, b, Width(a));
    LessPrefix(QueuePrefix(topic), Digits(a, Width(a)), Digits(b, Width(b)));
  }

  lemma {:induction false} LessLonger(s: string, t: string, c: char)
    requires |s| == |t|
    ensures Less(s, t + [c]) <==> Less(s, t) || s == t
  {
    if s == [] {
      assert t + [c] == [c];
    } else {
      assert (t + [c])[1..] == t[1..] + [c];
      LessLonger(s[1..], t[1..], c);
      assert s == [s[0]] + s[1..] && t == [t[0]] + t[1..];
    }
  }

  /** A name sorts below one that is a digit longer exactly when its number is at most
      the longer number without its last digit. */
  lemma WiderOrder(topic: string, a: nat, b: nat)
    requires Width(b) == Width(a) + 1
    ensures Less(QueueName(topic, a), QueueName(topic, b)) <==> a <= b / 16
  {
    var w := Width(a);
    var s, t := Digits(a, w), Digits(b / 16, w);
    assert b / 16 < Pow16(w);
    assert Digits(b, w + 1) == t + [HexDigit(b % 16)];
    LessPrefix(QueuePrefix(topic), s, Digits(b, w + 1));
    LessLonger(s, t, HexDigit(b % 16));
    DigitsOrder(a, b / 16, w);
  }

  /** The last name of one width sorts above all names of the next but the last sixteen. */
  lemma QueueOrderWraps(topic: string, w: nat, h: nat)
    requires w >= MIN_WIDTH && Pow16(w) <= h < Pow16(w + 1)
    ensures Less(QueueName(topic, Pow16(w) - 1), QueueName(topic, h)) <==> h >= Pow16(w + 1) - 16
  {
    WidthIs(h, w + 1);
    LastIsWide(w, Pow16(w) - 1);
    WrapsAt(topic, Pow16(w) - 1, h);
  }

  lemma LastIsWide(w: nat, last: nat)
    requires w >= MIN_WIDTH && last + 1 == Pow16(w)
    ensures Width(last) == w
  {
    WidthIs(last, w);
  }

  lemma WrapsAt(topic: string, m: nat, h: nat)
    requires Width(h) == Width(m) + 1
    ensures Less(QueueName(topic, m), QueueName(topic, h)) <==> h >= 16 * m
  {
    WiderOrder(topic, m, h);
  }

  predicate OrderAgrees(topic: string, a: nat, b: nat) {
    Less(QueueName(topic, a), QueueName(topic, b)) <==> a < b
  }

  lemma PowMinWidth()
    ensures Pow16(MIN_WIDTH) == 4503599627370496
  {
    assert Pow16(4) == 65536 && Pow16(8) == 65536 * Pow16(4) && Pow16(12) == 65536 * Pow16(8);
  }

  /** Comparing key names instead of list numbers is right for exactly the lists
      numbered below 16^13 = 4503599627370496. */
  lemma KeyOrderExact(topic: string, limit: nat)
    ensures (forall a: nat, b: nat | a < limit && b < limit :: OrderAgrees(topic, a, b))
            <==> limit <= 4503599627370496
  {
    PowMinWidth();
    if limit <= Pow16(MIN_WIDTH) {
      forall a: nat, b: nat | a < limit && b < limit ensures OrderAgrees(topic, a, b) {
        WidthIs(a, MIN_WIDTH);
        WidthIs(b, MIN_WIDTH);
        SameWidthOrder(topic, a, b);
      }
    } else {
      FirstDisagreement(topic);
      assert !OrderAgrees(topic, Pow16(MIN_WIDTH) - 1, Pow16(MIN_WIDTH));
    }
  }

  lemma FirstDisagreement(topic: string)
    ensures !OrderAgrees(topic, Pow16(MIN_WIDTH) - 1, Pow16(MIN_WIDTH))
  {
    QueueOrderWraps(topic, MIN_WIDTH, Pow16(MIN_WIDTH));
  }
}
