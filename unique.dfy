/** The identifier generator of src/unique/index.ts: pseudo-random base-16
    digits, formatted as a version-4 UUID (RFC 4122, section 4.4) or used as
    indices into a caller's table of characters.

    The wall clock (`Date.getTime()` plus `performance.now()`) is the parameter
    `clock`, its whole milliseconds; `Math.random()` is the oracle `rand`:
    `rand(i)` is the whole part, modulo 16, of what the i-th draw of one
    nextNumbers call adds to the accumulator (`Math.random() * 16`, plus, at
    the first draw, the fraction of a millisecond `performance.now()` left in
    the clock; after the first division the accumulator is whole). */
module Unique {
  import opened Wrappers

  /** A base-16 digit: 0 to 15. */
  type Nibble = x: int | 0 <= x < 16

  /** The count nextNumbers uses when it is given none, 0 or a negative one. */
  const DefaultCount: nat := 16

  /** The count after the guard at the top of nextNumbers. */
  function DigitCount(len: Option<int>): (n: nat)
    ensures n > 0
    ensures len.Some? && len.value > 0 ==> n == len.value
    ensures len.None? || len.value <= 0 ==> n == DefaultCount
  {
    if len.None? || len.value <= 0 then DefaultCount else len.value
  }

  /** One emitted digit: the accumulator plus the random part, taken modulo
      16 and truncated by `| 0`. Both operands are non-negative, so the
      truncating `%` of JavaScript agrees with Dafny's. */
  function Digit(acc: nat, noise: Nibble): (r: Nibble)
    ensures (acc + noise - r) % 16 == 0
  {
    (acc + noise) % 16
  }

  function Pow16(k: nat): (p: nat)
    ensures p > 0
  {
    if k == 0 then 1 else 16 * Pow16(k - 1)
  }

  lemma {:induction false} MulMono(m: nat, x: int, y: int)
    requires x <= y
    ensures m * x <= m * y
    decreases m
  {
    if m > 0 {
      MulMono(m - 1, x, y);
      assert m * x == (m - 1) * x + x;
      assert m * y == (m - 1) * y + y;
    }
  }

  /** Euclidean division has one quotient. */
  lemma DivUnique(a: nat, m: nat, q: nat, r: nat)
    requires m > 0 && a == m * q + r && r < m
    ensures a / m == q
  {
    var d := a / m;
    assert a == m * d + a % m;
    if d > q {
      MulMono(m, q + 1, d);
      assert false;
    } else if d < q {
      MulMono(m, d + 1, q);
      assert false;
    }
  }

  lemma MulDistributes(x: int, y: int, z: int)
    ensures x * (y + z) == x * y + x * z
  {
  }

  lemma MulAssociates(x: int, y: int, z: int)
    ensures x * (y * z) == (x * y) * z
  {
  }

  /** Dividing by b and then by 16 is dividing by 16 * b. */
  lemma DivDiv16(a: nat, b: nat)
    requires b > 0
    ensures a / b / 16 == a / (16 * b)
  {
    var q, r := a / b, a % b;
    var q2, r2 := q / 16, q % 16;
    assert a == b * q + r;
    assert q == 16 * q2 + r2;
    MulDistributes(b, 16 * q2, r2);
    assert b * q == b * (16 * q2) + b * r2;
    MulAssociates(b, 16, q2);
    MulMono(b, r2, 15);
    DivUnique(a, 16 * b, q2, b * r2 + r);
  }

  /** nextNumbers' accumulator after k rounds: the seed divided by 16, k times. */
  function Accumulator(seed: nat, k: nat): nat {
    if k == 0 then seed else Accumulator(seed, k - 1) / 16
  }

  /** After k rounds the accumulator is the seed divided by 16^k. */
  lemma {:induction false} AccumulatorIsQuotient(seed: nat, k: nat)
    ensures Accumulator(seed, k) == seed / Pow16(k)
  {
    if k > 0 {
      AccumulatorIsQuotient(seed, k - 1);
      DivDiv16(seed, Pow16(k - 1));
    }
  }

  /** The digits the first k rounds of nextNumbers emit from the seed. */
  function Draws(seed: nat, rand: nat -> Nibble, k: nat): (ds: seq<Nibble>)
    ensures |ds| == k
  {
    if k == 0 then [] else Draws(seed, rand, k - 1) + [Digit(Accumulator(seed, k - 1), rand(k - 1))]
  }

  /** Digit i is computed from the seed divided by 16^i and the i-th draw. */
  lemma {:induction false} DrawsAt(seed: nat, rand: nat -> Nibble, k: nat, i: nat)
    requires i < k
    ensures Draws(seed, rand, k)[i] == Digit(seed / Pow16(i), rand(i))
  {
    if i == k - 1 {
      AccumulatorIsQuotient(seed, i);
    } else {
      DrawsAt(seed, rand, k - 1, i);
    }
  }

  /** nextNumbers(len, eachCallback): `len` rounds, each pushing one digit
      and dividing the accumulator by 16, and handing the digit to the
      callback when one is given. The callback is modelled by what it
      produces: `effects` lists its outputs, call by call. */
  method NextNumbers<T>(len: Option<int>, clock: nat, rand: nat -> Nibble, callback: Option<Nibble -> T>)
    returns (result: seq<Nibble>, effects: seq<T>)
    ensures |result| == DigitCount(len)
    ensures result == Draws(clock, rand, DigitCount(len))
    ensures callback.None? ==> effects == []
    ensures callback.Some? ==> |effects| == |result|
    ensures callback.Some? ==> forall i :: 0 <= i < |result| ==> effects[i] == callback.value(result[i])
  {
    var count := DigitCount(len);
    var n: int := count;
    var d: nat := clock;
    result, effects := [], [];
    while n > 0
      invariant 0 <= n <= count && |result| + n == count
      invariant d == Accumulator(clock, |result|)
      invariant result == Draws(clock, rand, |result|)
      invariant callback.None? ==> effects == []
      invariant callback.Some? ==> |effects| == |result|
      invariant callback.Some? ==> forall i :: 0 <= i < |result| ==> effects[i] == callback.value(result[i])
    {
      var digit := Digit(d, rand(|result|));
      result := result + [digit];
      d := d / 16;
      if callback.Some? {
        effects := effects + [callback.value(digit)];
      }
      n := n - 1;
    }
  }

  // ---------------------------------------------------------------- uuid

  /** A character `toString(16)` can produce for a digit: 0-9 or a-f. */
  predicate IsLowerHex(c: char) {
    '0' <= c <= '9' || 'a' <= c <= 'f'
  }

  /** `n.toString(16)` for a digit: its lower-case hexadecimal character. */
  function Hex(n: Nibble): (c: char)
    ensures IsLowerHex(c)
    ensures n < 10 ==> c as int - '0' as int == n
    ensures n >= 10 ==> c as int - 'a' as int == n - 10
  {
    if n < 10 then (48 + n) as char else (87 + n) as char
  }

  function HexString(ds: seq<Nibble>): (s: string)
    ensures |s| == |ds|
  {
    seq(|ds|, i requires 0 <= i < |ds| => Hex(ds[i]))
  }

  lemma HexStringCons(ds: seq<Nibble>)
    requires ds != []
    ensures HexString(ds) == [Hex(ds[0])] + HexString(ds[1..])
  {
  }

  /** `r & 0x3 | 0x8`: the variant field of RFC 4122, section 4.1.1 (binary
      10xx), keeping the low two bits of the drawn digit. */
  function VariantBits(r: Nibble): (v: Nibble)
    ensures 8 <= v < 12
    ensures v % 4 == r % 4
  {
    (((r as bv8) & 0x3) | 0x8) as int
  }

  /** A group of n `x` placeholders followed by the rest of a template. */
  function Group(n: nat, rest: string): string {
    seq(n, _ => 'x') + rest
  }

  // The template 'xxxxxxxx-xxxx-4xxx-yxxx-xxxxxxxxxxxx', built from the
  // right, one field of RFC 4122, section 4.1.2, at a time.
  const NodePart: string := ['-'] + Group(12, [])
  const ClockSeqPart: string := ['-', 'y'] + Group(3, NodePart)
  const TimeHighPart: string := ['-', '4'] + Group(3, ClockSeqPart)
  const TimeMidPart: string := ['-'] + Group(4, TimeHighPart)
  const Template: string := Group(8, TimeMidPart)

  lemma TemplateIsLiteral()
    ensures Template == "xxxxxxxx-xxxx-4xxx-yxxx-xxxxxxxxxxxx"
  {
  }

  predicate IsPlaceholder(c: char) {
    c == 'x' || c == 'y'
  }

  /** The number of `x`/`y` placeholders in a template. */
  function Placeholders(t: string): nat {
    if t == [] then 0 else (if IsPlaceholder(t[0]) then 1 else 0) + Placeholders(t[1..])
  }

  /** What `t.replace(/[xy]/g, …)` returns when the callback hands out the
      digits of `ds` in turn: each `x` becomes the next digit, each `y` the
      next digit with the variant bits set, and every other character stays. */
  function Fill(t: string, ds: seq<Nibble>): (s: string)
    requires Placeholders(t) <= |ds|
    ensures |s| == |t|
  {
    if t == [] then []
    else if IsPlaceholder(t[0]) then [Emit(t[0], ds[0])] + Fill(t[1..], ds[1..])
    else [t[0]] + Fill(t[1..], ds)
  }

  /** A group of n placeholders takes the next n digits, in order, and
      leaves the digits after them to the rest of the template. */
  lemma {:induction false} FillGroup(n: nat, rest: string, ds: seq<Nibble>)
    requires n + Placeholders(rest) <= |ds|
    ensures Placeholders(Group(n, rest)) == n + Placeholders(rest)
    ensures Fill(Group(n, rest), ds) == HexString(ds[..n]) + Fill(rest, ds[n..])
  {
    if n == 0 {
      assert Group(n, rest) == rest;
      assert ds[0..] == ds;
    } else {
      var g := Group(n, rest);
      assert g[0] == 'x';
      assert g[1..] == Group(n - 1, rest);
      FillGroup(n - 1, rest, ds[1..]);
      assert ds[1..][n - 1..] == ds[n..];
      assert Fill(g, ds) == [Emit(g[0], ds[0])] + Fill(g[1..], ds[1..]);
      assert Emit(g[0], ds[0]) == Hex(ds[0]);
      HexStringCons(ds[..n]);
      assert ds[..n][1..] == ds[1..][..n - 1];
    }
  }

  lemma {:induction false} PlaceholdersGroup(n: nat, rest: string)
    ensures Placeholders(Group(n, rest)) == n + Placeholders(rest)
  {
    if n == 0 {
      assert Group(n, rest) == rest;
    } else {
      assert Group(n, rest)[1..] == Group(n - 1, rest);
      PlaceholdersGroup(n - 1, rest);
    }
  }

  /** A literal character is copied and takes no digit. */
  lemma FillLiteral(c: char, rest: string, ds: seq<Nibble>)
    requires !IsPlaceholder(c) && Placeholders(rest) <= |ds|
    ensures Placeholders([c] + rest) == Placeholders(rest)
    ensures Fill([c] + rest, ds) == [c] + Fill(rest, ds)
  {
    assert ([c] + rest)[1..] == rest;
  }

  /** A `y` takes one digit and shows it with the variant bits set. */
  lemma FillVariant(rest: string, ds: seq<Nibble>)
    requires 1 + Placeholders(rest) <= |ds|
    ensures Placeholders(['y'] + rest) == 1 + Placeholders(rest)
    ensures Fill(['y'] + rest, ds) == [Hex(VariantBits(ds[0]))] + Fill(rest, ds[1..])
  {
    assert (['y'] + rest)[1..] == rest;
  }

  lemma NodePartFill(e: seq<Nibble>)
    requires |e| == 12
    ensures Placeholders(NodePart) == 12
    ensures Fill(NodePart, e) == ['-'] + HexString(e)
  {
    FillGroup(12, [], e);
    assert e[..12] == e;
    FillLiteral('-', Group(12, []), e);
  }

  lemma ClockSeqPartFill(d: seq<Nibble>)
    requires |d| == 16
    ensures Placeholders(ClockSeqPart) == 16
    ensures Fill(ClockSeqPart, d) == ['-', Hex(VariantBits(d[0]))] + HexString(d[1..4]) + ['-'] + HexString(d[4..])
  {
    NodePartFill(d[4..]);
    FillGroup(3, NodePart, d[1..]);
    assert d[1..][3..] == d[4..];
    assert d[1..][..3] == d[1..4];
    assert ClockSeqPart == ['-'] + (['y'] + Group(3, NodePart));
    FillVariant(Group(3, NodePart), d);
    FillLiteral('-', ['y'] + Group(3, NodePart), d);
  }

  lemma TimeHighPartFill(c: seq<Nibble>)
    requires |c| == 19
    ensures Placeholders(TimeHighPart) == 19
    ensures Fill(TimeHighPart, c)
      == ['-', '4'] + HexString(c[..3]) + ['-', Hex(VariantBits(c[3]))] + HexString(c[4..7]) + ['-'] + HexString(c[7..])
  {
    ClockSeqPartFill(c[3..]);
    assert c[3..][1..4] == c[4..7];
    assert c[3..][4..] == c[7..];
    FillGroup(3, ClockSeqPart, c);
    assert TimeHighPart == ['-'] + (['4'] + Group(3, ClockSeqPart));
    FillLiteral('4', Group(3, ClockSeqPart), c);
    FillLiteral('-', ['4'] + Group(3, ClockSeqPart), c);
  }

  lemma TimeMidPartFill(b: seq<Nibble>)
    requires |b| == 23
    ensures Placeholders(TimeMidPart) == 23
    ensures Fill(TimeMidPart, b)
      == ['-'] + HexString(b[..4]) + ['-', '4'] + HexString(b[4..7])
         + ['-', Hex(VariantBits(b[7]))] + HexString(b[8..11]) + ['-'] + HexString(b[11..])
  {
    TimeHighPartFill(b[4..]);
    assert b[4..][..3] == b[4..7];
    assert b[4..][4..7] == b[8..11];
    assert b[4..][7..] == b[11..];
    FillGroup(4, TimeHighPart, b);
    FillLiteral('-', Group(4, TimeHighPart), b);
  }

  /** The template takes exactly 31 digits. */
  lemma TemplatePlaceholders()
    ensures Placeholders(Template) == 31
  {
    PlaceholdersGroup(12, []);
    PlaceholdersGroup(3, NodePart);
    PlaceholdersGroup(3, ClockSeqPart);
    PlaceholdersGroup(4, TimeHighPart);
    PlaceholdersGroup(8, TimeMidPart);
    assert NodePart[1..] == Group(12, []);
    assert ClockSeqPart[1..][1..] == Group(3, NodePart);
    assert TimeHighPart[1..][1..] == Group(3, ClockSeqPart);
    assert TimeMidPart[1..] == Group(4, TimeHighPart);
  }

  /** The identifier uuid() builds from its 31 drawn digits. */
  function UuidText(ds: seq<Nibble>): (s: string)
    requires |ds| == 31
    ensures |s| == |Template|
  {
    TemplatePlaceholders();
    Fill(Template, ds)
  }

  /** The layout of RFC 4122, section 4.4, in 8-4-4-4-12 groups: the
      version digit 4 (section 4.1.3) fixed at the head of the third group,
      the variant digit (section 4.1.1) at the head of the fourth, and the
      31 digits consumed from left to right, each exactly once. */
  lemma UuidLayout(ds: seq<Nibble>)
    requires |ds| == 31
    ensures UuidText(ds)
      == HexString(ds[..8]) + "-" + HexString(ds[8..12]) + "-4" + HexString(ds[12..15])
         + "-" + [Hex(VariantBits(ds[15]))] + HexString(ds[16..19]) + "-" + HexString(ds[19..])
  {
    TimeMidPartFill(ds[8..]);
    FillGroup(8, TimeMidPart, ds);
    assert ds[8..][..4] == ds[8..12];
    assert ds[8..][4..7] == ds[12..15];
    assert ds[8..][7] == ds[15];
    assert ds[8..][8..11] == ds[16..19];
    assert ds[8..][11..] == ds[19..];
  }

  /** `^[0-9a-f]{8}-[0-9a-f]{4}-4[0-9a-f]{3}-[89ab][0-9a-f]{3}-[0-9a-f]{12}$` */
  predicate IsUuidV4(s: string) {
    |s| == 36 &&
    forall p | 0 <= p < |s| ::
      if p == 8 || p == 13 || p == 18 || p == 23 then s[p] == '-'
      else if p == 14 then s[p] == '4'
      else if p == 19 then s[p] in {'8', '9', 'a', 'b'}
      else IsLowerHex(s[p])
  }

  /** Whatever digits are drawn, the filled template is a version-4 UUID. */
  lemma UuidShape(ds: seq<Nibble>)
    requires |ds| == 31
    ensures IsUuidV4(UuidText(ds))
  {
    UuidLayout(ds);
    var s := UuidText(ds);
    var v := VariantBits(ds[15]);
    assert Hex(v) in {'8', '9', 'a', 'b'};
    forall p | 0 <= p < |s|
      ensures if p == 8 || p == 13 || p == 18 || p == 23 then s[p] == '-'
              else if p == 14 then s[p] == '4'
              else if p == 19 then s[p] in {'8', '9', 'a', 'b'}
              else IsLowerHex(s[p])
    {
      if p < 8 {
        assert s[p] == Hex(ds[p]);
      } else if 8 < p < 13 {
        assert s[p] == Hex(ds[p - 1]);
      } else if 14 < p < 18 {
        assert s[p] == Hex(ds[p - 3]);
      } else if 19 < p < 23 {
        assert s[p] == Hex(ds[p - 4]);
      } else if 23 < p {
        assert s[p] == Hex(ds[p - 5]);
      }
    }
  }

  /** The value of a lowercase hexadecimal digit: the inverse of Hex. */
  function HexValue(c: char): (n: Nibble)
    requires IsLowerHex(c)
    ensures Hex(n) == c
  {
    if c <= '9' then c as int - '0' as int else c as int - 'a' as int + 10
  }

  /** Where the i-th drawn digit lands in the identifier. */
  function Position(i: nat): nat {
    if i < 8 then i
    else if i < 12 then i + 1
    else if i < 15 then i + 3
    else if i < 19 then i + 4
    else i + 5
  }

  /** uuid() loses nothing it draws but the top two bits of the variant
      digit: every other drawn digit reads back from its own position, and
      the variant digit keeps its low two bits. */
  lemma UuidDigitsReadBack(ds: seq<Nibble>)
    requires |ds| == 31
    ensures forall i :: 0 <= i < 31 && i != 15 ==>
      IsLowerHex(UuidText(ds)[Position(i)]) && HexValue(UuidText(ds)[Position(i)]) == ds[i]
    ensures IsLowerHex(UuidText(ds)[19]) && HexValue(UuidText(ds)[19]) % 4 == ds[15] % 4
  {
    UuidLayout(ds);
    var s := UuidText(ds);
    forall i | 0 <= i < 31 && i != 15
      ensures IsLowerHex(s[Position(i)]) && HexValue(s[Position(i)]) == ds[i]
    {
      assert s[Position(i)] == Hex(ds[i]);
    }
    assert s[19] == Hex(VariantBits(ds[15]));
  }

  /** Fill, one character at a time. */
  lemma FillCons(t: string, ds: seq<Nibble>)
    requires t != [] && Placeholders(t) <= |ds|
    ensures IsPlaceholder(t[0]) ==> ds != [] && Placeholders(t[1..]) <= |ds| - 1
    ensures IsPlaceholder(t[0]) ==> Fill(t, ds) == [Emit(t[0], ds[0])] + Fill(t[1..], ds[1..])
    ensures !IsPlaceholder(t[0]) ==> Placeholders(t[1..]) <= |ds| && Fill(t, ds) == [t[0]] + Fill(t[1..], ds)
  {
  }

  /** What the replace callback returns for placeholder `c` and digit `r`:
      `r` itself for `x`, `r & 0x3 | 0x8` for `y`, in hex. */
  function Emit(c: char, r: Nibble): (e: char)
    ensures IsLowerHex(e)
    ensures c == 'x' ==> HexValue(e) == r
    ensures c != 'x' ==> 8 <= HexValue(e) <= 11 && HexValue(e) % 4 == r % 4
  {
    if c == 'x' then Hex(r) else Hex(VariantBits(r))
  }

  /** One step of the replace keeps its invariant: the text built so far,
      followed by the rest of the template filled with the digits not yet
      used, is the whole filled template. */
  lemma ReplaceStep(t: string, ds: seq<Nibble>, p: nat, index: nat, s: string)
    requires Placeholders(t) <= |ds|
    requires p < |t| && index + Placeholders(t[p..]) <= |ds|
    requires s + Fill(t[p..], ds[index..]) == Fill(t, ds)
    ensures IsPlaceholder(t[p]) ==> index < |ds| && index + 1 + Placeholders(t[p + 1..]) <= |ds|
    ensures IsPlaceholder(t[p]) ==> (s + [Emit(t[p], ds[index])]) + Fill(t[p + 1..], ds[index + 1..]) == Fill(t, ds)
    ensures !IsPlaceholder(t[p]) ==> index + Placeholders(t[p + 1..]) <= |ds|
    ensures !IsPlaceholder(t[p]) ==> (s + [t[p]]) + Fill(t[p + 1..], ds[index..]) == Fill(t, ds)
  {
    DropOne(t, p);
    FillCons(t[p..], ds[index..]);
    if IsPlaceholder(t[p]) {
      DropOne(ds, index);
      Associative(s, [Emit(t[p], ds[index])], Fill(t[p + 1..], ds[index + 1..]));
    } else {
      Associative(s, [t[p]], Fill(t[p + 1..], ds[index..]));
    }
  }

  lemma DropOne<T>(a: seq<T>, i: nat)
    requires i < |a|
    ensures a[i..][1..] == a[i + 1..]
  {
  }

  lemma Associative<T>(a: seq<T>, b: seq<T>, c: seq<T>)
    ensures a + b + c == a + (b + c)
  {
  }

  /** `t.replace(/[xy]/g, c => …)` with the callback of uuid(): a running
      index hands out the digits of `numbers`, one per placeholder, left to
      right. */
  method ReplacePlaceholders(t: string, numbers: seq<Nibble>) returns (s: string)
    requires Placeholders(t) <= |numbers|
    ensures s == Fill(t, numbers)
  {
    var index := 0;
    s := [];
    assert t[0..] == t;
    assert numbers[0..] == numbers;
    for p := 0 to |t|
      invariant index + Placeholders(t[p..]) <= |numbers|
      invariant s + Fill(t[p..], numbers[index..]) == Fill(t, numbers)
    {
      ReplaceStep(t, numbers, p, index, s);
      var c := t[p];
      if c == 'x' || c == 'y' {
        var r := numbers[index];
        index := index + 1;
        s := s + [Emit(c, r)];
      } else {
        s := s + [c];
      }
    }
    assert t[|t|..] == [];
  }

  /** uuid(): 31 digits drawn by nextNumbers fill the template. */
  method Uuid(clock: nat, rand: nat -> Nibble) returns (id: string)
    ensures id == UuidText(Draws(clock, rand, 31))
    ensures IsUuidV4(id)
  {
    var numbers, _ := NextNumbers<bool>(Some(31), clock, rand, None);
    TemplatePlaceholders();
    id := ReplacePlaceholders(Template, numbers);
    UuidShape(numbers);
  }

  // ----------------------------------------------------------- shortUUID

  /** The error shortUUID throws: a table must be given and hold at least 16 entries. */
  datatype Error = TableTooShort

  /** The least table length shortUUID accepts. */
  const MinTableLength: nat := 16

  /** shortUUID(table): reject a missing, empty or short table before
      drawing anything, otherwise draw 16 digits and let the callback push
      `table[num]` for each of them, in draw order. A table may be a string
      (T its UTF-16 code units, which `length` and indexing count) or an
      array of strings (T = string). */
  method ShortUUID<T>(table: Option<seq<T>>, clock: nat, rand: nat -> Nibble) returns (r: Result<seq<T>, Error>)
    ensures r.Failure? <==> table.None? || |table.value| < MinTableLength
    ensures r.Success? ==> |r.value| == 16
    ensures r.Success? ==> forall i :: 0 <= i < 16 ==> r.value[i] == table.value[Draws(clock, rand, 16)[i]]
  {
    if table.None? || |table.value| == 0 || |table.value| < MinTableLength {
      return Failure(TableTooShort);
    }
    var t := table.value;
    var _, pushed := NextNumbers(Some(16), clock, rand, Some((num: Nibble) => t[num]));
    return Success(pushed);
  }
}
