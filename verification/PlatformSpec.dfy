/** The platform spec strings of the ISO installer: how they are printed, how they are parsed back,
    and how the two variables that hold them settle. */
module PlatformSpec {
  import opened Wrappers

  const MAX_UINT32: nat := 0xFFFF_FFFF
  const MAX_SPEC_STRING_LEN: nat := 256
  const BOARD_ID_AGX_ORIN: nat := 3701
  const BOARD_ID_ORIN_NANO: nat := 3767
  const BOARD_ID_AGX_THOR: nat := 3834
  const BOARD_NAME_ORIN_NANO_DEVKIT_SUPER: string := "jetson-orin-nano-devkit-super"

  datatype Status = Success | InvalidParameter | BadBufferSize | BufferTooSmall | DeviceError | Unsupported

  /** The fields of a spec string. */
  datatype Info = Info(boardId: nat, boardFab: string, boardSku: nat, boardName: string)

  const EMPTY: Info := Info(0, "", 0, "")

  // ---------- decimal numbers ----------

  predicate IsDigit(c: char) {
    '0' <= c <= '9'
  }

  function DigitOf(c: char): (d: nat)
    requires IsDigit(c)
    ensures d <= 9
  {
    c as int - '0' as int
  }

  predicate Digits(s: string) {
    forall i :: 0 <= i < |s| ==> IsDigit(s[i])
  }

  function Value(s: string): nat
    requires Digits(s)
  {
    if s == "" then 0 else Value(s[..|s| - 1]) * 10 + DigitOf(s[|s| - 1])
  }

  /** Some digits at the front are already more than 32 bits hold. */
  ghost predicate Overflows(s: string) {
    exists k: nat :: k <= |s| && TooLarge(s[..k])
  }

  ghost predicate TooLarge(s: string) {
    Digits(s) && Value(s) > MAX_UINT32
  }

  /** What ParseAsciiUint32Field answers: a non-empty string of digits is accepted exactly when its
      value fits, and the error says which came first, a bad character or the overflow. */
  ghost function Number(s: string): (Status, nat) {
    if Overflows(s) then (BadBufferSize, 0)
    else if s != "" && Digits(s) then (Success, Value(s))
    else (InvalidParameter, 0)
  }

  lemma {:induction false} ValueSplit(s: string, k: nat)
    requires k < |s| && Digits(s[..k + 1])
    ensures Digits(s[..k]) && IsDigit(s[k]) && Value(s[..k + 1]) == Value(s[..k]) * 10 + DigitOf(s[k])
  {
    var t := s[..k + 1];
    assert t[..|t| - 1] == s[..k] && t[|t| - 1] == s[k];
    assert forall i :: 0 <= i < k ==> s[..k][i] == t[i];
  }

  lemma {:induction false} DigitsGrow(s: string, k: nat)
    requires k < |s| && Digits(s[..k]) && IsDigit(s[k])
    ensures Digits(s[..k + 1])
  {
    assert forall i :: 0 <= i < k ==> s[..k + 1][i] == s[..k][i];
  }

  lemma {:induction false} DigitsFront(s: string, k: nat, j: nat)
    requires k <= j <= |s| && Digits(s[..j])
    ensures Digits(s[..k])
  {
    assert forall i :: 0 <= i < k ==> s[..k][i] == s[..j][i];
  }

  /** A front of the string that overflows makes every longer run of digits overflow. */
  lemma {:induction false} ValueGrows(s: string, k: nat, j: nat)
    requires k <= j <= |s| && Digits(s[..j])
    ensures Digits(s[..k]) && Value(s[..k]) <= Value(s[..j])
    decreases j - k
  {
    DigitsFront(s, k, j);
    if k < j {
      DigitsFront(s, k + 1, j);
      ValueSplit(s, k);
      ValueGrows(s, k + 1, j);
    }
  }

  /** Up to k all is digits that fit, and then comes a character that is none: nothing overflows. */
  lemma {:induction false} NoOverflow(s: string, k: nat)
    requires k <= |s| && Digits(s[..k]) && Value(s[..k]) <= MAX_UINT32
    requires k == |s| || !IsDigit(s[k])
    ensures !Overflows(s)
  {
    forall j: nat | j <= |s|
      ensures !TooLarge(s[..j])
    {
      if k < j {
        NotDigits(s, k, j);
      } else if Digits(s[..j]) {
        ValueGrows(s, j, k);
      }
    }
  }

  lemma {:induction false} NotDigits(s: string, k: nat, j: nat)
    requires k < j <= |s| && !IsDigit(s[k])
    ensures !Digits(s[..j])
  {
    assert s[..j][k] == s[k];
  }

  method ParseAsciiUint32Field(field: string) returns (status: Status, value: nat)
    ensures (status, value) == Number(field)
  {
    if |field| == 0 {
      NoOverflow(field, 0);
      return InvalidParameter, 0;
    }
    var index, parsed := 0, 0;
    while index < |field|
      invariant index <= |field| && Digits(field[..index]) && parsed == Value(field[..index]) <= MAX_UINT32
    {
      if field[index] < '0' || field[index] > '9' {
        NoOverflow(field, index);
        assert !IsDigit(field[index]);
        return InvalidParameter, 0;
      }
      var digit := DigitOf(field[index]);
      DigitsGrow(field, index);
      ValueSplit(field, index);
      if parsed > (MAX_UINT32 - digit) / 10 {
        assert TooLarge(field[..index + 1]);
        return BadBufferSize, 0;
      }
      parsed := parsed * 10 + digit;
      index := index + 1;
    }
    assert field[..index] == field;
    NoOverflow(field, index);
    return Success, parsed;
  }

  // ---------- fields between dashes ----------

  /** Where the next dash is, or the end: what AsciiStrStr (s + i, "-") finds. */
  function Dash(s: string, i: nat): (k: nat)
    requires i <= |s|
    ensures i <= k <= |s|
    decreases |s| - i
  {
    if i == |s| || s[i] == '-' then i else Dash(s, i + 1)
  }

  /** One past the n-th dash from i on. */
  function PastDashes(s: string, i: nat, n: nat): (p: Option<nat>)
    requires i <= |s|
    ensures p.Some? ==> i <= p.value <= |s|
    decreases n
  {
    if n == 0 then Some(i)
    else if Dash(s, i) == |s| then None
    else PastDashes(s, Dash(s, i) + 1, n - 1)
  }

  /** CopyPlatformSpecField into a buffer of a given size. */
  function Field(s: string, i: nat, size: nat): (Status, string)
    requires i <= |s|
  {
    if size == 0 || Dash(s, i) == |s| then (InvalidParameter, "")
    else if Dash(s, i) - i >= size then (BufferTooSmall, "")
    else (Success, s[i..Dash(s, i)])
  }

  /** The board name: all that follows the sixth dash but for one dash at the end. */
  function NameOf(t: string): string {
    if t != "" && t[|t| - 1] == '-' then t[..|t| - 1] else t
  }

  function ParseName(s: string): (Status, string) {
    match PastDashes(s, 0, 6)
    case None => (InvalidParameter, "")
    case Some(p) =>
      if NameOf(s[p..]) == "" then (InvalidParameter, "")
      else if |NameOf(s[p..])| >= MAX_SPEC_STRING_LEN then (BufferTooSmall, "")
      else (Success, NameOf(s[p..]))
  }

  /** ParseTegraPlatformSpec: the status, and what it leaves behind. */
  ghost function Parse(s: string): (Status, Info) {
    var (st0, id) := Field(s, 0, 5);
    if st0 != Success then (st0, EMPTY)
    else if Number(id).0 != Success then (Number(id).0, EMPTY)
    else
      ParseFab(s, Dash(s, 0) + 1, EMPTY.(boardId := Number(id).1))
  }

  /** Parse from the FAB on, which is at p. */
  ghost function ParseFab(s: string, p: nat, i: Info): (Status, Info)
    requires p <= |s|
  {
    var (st1, fab) := Field(s, p, 4);
    if st1 != Success then (st1, i) else ParseRest(s, Dash(s, p) + 1, i.(boardFab := fab))
  }

  /** Parse from the SKU on, which is at p. */
  ghost function ParseRest(s: string, p: nat, i: Info): (Status, Info)
    requires p <= |s|
  {
    var (st2, sku) := Field(s, p, 5);
    if st2 != Success then (st2, i)
    else if Number(sku).0 != Success then (Number(sku).0, i)
    else
      var j := i.(boardSku := Number(sku).1);
      var (st3, name) := ParseName(s);
      if st3 != Success then (st3, j) else (Success, j.(boardName := name))
  }

  // ---------- the same, said with a split ----------

  /** The parts of a string between its dashes. */
  function Split(s: string): (fs: seq<string>)
    ensures |fs| > 0
    decreases |s|
  {
    if Dash(s, 0) == |s| then [s] else [s[..Dash(s, 0)]] + Split(s[Dash(s, 0) + 1..])
  }

  function Join(fs: seq<string>): string
    requires |fs| > 0
  {
    if |fs| == 1 then fs[0] else fs[0] + "-" + Join(fs[1..])
  }

  ghost predicate IsNumber(s: string) {
    1 <= |s| <= 4 && Digits(s)
  }

  /** What a spec string is to be: a number, a FAB and a number of at most 4, 3 and 4 characters,
      three parts of no account, and a name that may itself have dashes. */
  ghost predicate WellFormed(fs: seq<string>) {
    && |fs| > 6
    && IsNumber(fs[0]) && |fs[1]| <= 3 && IsNumber(fs[2])
    && 1 <= |NameOf(Join(fs[6..]))| < MAX_SPEC_STRING_LEN
  }

  lemma {:induction false} DashShift(s: string, i: nat, k: nat)
    requires k <= i <= |s|
    ensures Dash(s[k..], i - k) + k == Dash(s, i)
    decreases |s| - i
  {
    if i < |s| && s[i] != '-' {
      assert s[k..][i - k] == s[i];
      DashShift(s, i + 1, k);
    }
  }

  lemma {:induction false} SplitAt(s: string, i: nat)
    requires i <= |s|
    ensures Dash(s, i) == |s| ==> Split(s[i..]) == [s[i..]]
    ensures Dash(s, i) < |s| ==> Split(s[i..]) == [s[i..Dash(s, i)]] + Split(s[Dash(s, i) + 1..])
  {
    hide *;
    DashShift(s, i, i);
    SplitIs(s[i..]);
    if Dash(s, i) < |s| {
      SliceOfRest(s, i, Dash(s, i));
    }
  }

  lemma {:induction false} SplitIs(s: string)
    ensures Split(s) == if Dash(s, 0) == |s| then [s] else [s[..Dash(s, 0)]] + Split(s[Dash(s, 0) + 1..])
  {
    hide Dash;
  }

  lemma {:induction false} SliceOfRest(s: string, i: nat, d: nat)
    requires i <= d < |s|
    ensures s[i..][..d - i] == s[i..d] && s[i..][d - i + 1..] == s[d + 1..]
  {
  }

  lemma {:induction false} JoinSplit(s: string)
    ensures Join(Split(s)) == s
    decreases |s|
  {
    var d := Dash(s, 0);
    if d < |s| {
      DashAt(s, 0);
      JoinSplit(s[d + 1..]);
      var rest := Split(s[d + 1..]);
      assert ([s[..d]] + rest)[1..] == rest;
      assert s == s[..d] + "-" + s[d + 1..];
    }
  }

  lemma {:induction false} DashAt(s: string, i: nat)
    requires i <= |s|
    ensures Dash(s, i) < |s| ==> s[Dash(s, i)] == '-'
    decreases |s| - i
  {
    if i < |s| && s[i] != '-' {
      DashAt(s, i + 1);
    }
  }

  lemma {:induction false} DropFirst(f: string, rest: seq<string>, n: nat)
    requires 0 < n <= |rest| + 1
    ensures ([f] + rest)[n..] == rest[n - 1..]
  {
  }

  lemma {:induction false} PastDashesSplits(s: string, i: nat, n: nat)
    requires i <= |s|
    ensures PastDashes(s, i, n).Some? <==> |Split(s[i..])| > n
    ensures PastDashes(s, i, n).Some? ==> Split(s[i..])[n..] == Split(s[PastDashes(s, i, n).value..])
    decreases n
  {
    hide Split, Dash;
    if n > 0 {
      SplitAt(s, i);
      var d := Dash(s, i);
      if d < |s| {
        PastDashesSplits(s, d + 1, n - 1);
        var rest := Split(s[d + 1..]);
        if |rest| >= n {
          DropFirst(s[i..d], rest, n);
        }
      }
    }
  }

  lemma {:induction false} ShortNumber(s: string)
    requires |s| <= 4
    ensures Number(s).0 == Success <==> IsNumber(s)
    ensures IsNumber(s) ==> Number(s).1 == Value(s) <= 9999
  {
    forall k: nat | k <= |s|
      ensures !TooLarge(s[..k])
    {
      if Digits(s[..k]) {
        FourDigits(s[..k]);
      }
    }
    if Digits(s) {
      FourDigits(s);
    }
  }

  lemma {:induction false} FourDigits(s: string)
    requires |s| <= 4 && Digits(s)
    ensures Value(s) <= 9999
    ensures |s| <= 3 ==> Value(s) <= 999
    ensures |s| <= 2 ==> Value(s) <= 99
    ensures |s| <= 1 ==> Value(s) <= 9
    ensures |s| <= 0 ==> Value(s) <= 0
    decreases |s|
  {
    if s != "" {
      FourDigits(s[..|s| - 1]);
    }
  }

  /** A field is the first part of what is left, and the rest is split as before. */
  lemma {:induction false} FieldIs(s: string, i: nat, size: nat)
    requires i <= |s| && size > 0
    ensures var fs := Split(s[i..]);
      && (Field(s, i, size).0 == Success <==> |fs| > 1 && |fs[0]| < size)
      && (Field(s, i, size).0 == Success ==> Field(s, i, size).1 == fs[0])
      && (Dash(s, i) < |s| ==> fs[1..] == Split(s[Dash(s, i) + 1..]))
  {
    SplitAt(s, i);
    var d := Dash(s, i);
    if d < |s| {
      assert ([s[i..d]] + Split(s[d + 1..]))[1..] == Split(s[d + 1..]);
    }
  }

  lemma {:induction false} NameIs(s: string)
    ensures var fs := Split(s);
      && (ParseName(s).0 == Success <==> |fs| > 6 && 1 <= |NameOf(Join(fs[6..]))| < MAX_SPEC_STRING_LEN)
      && (ParseName(s).0 == Success ==> ParseName(s).1 == NameOf(Join(fs[6..])))
  {
    assert s[0..] == s;
    PastDashesSplits(s, 0, 6);
    hide NameOf, Split, Join, Dash;
    var p := PastDashes(s, 0, 6);
    if p.Some? {
      JoinSplit(s[p.value..]);
    }
  }

  lemma {:induction false} RestIs(s: string, p: nat, i: Info)
    requires p <= |s|
    ensures var fs, gs := Split(s[p..]), Split(s);
      var good := |fs| > 1 && IsNumber(fs[0]) && |gs| > 6 && 1 <= |NameOf(Join(gs[6..]))| < MAX_SPEC_STRING_LEN;
      && (ParseRest(s, p, i).0 == Success <==> good)
      && (good ==> ParseRest(s, p, i).1 == i.(boardSku := Value(fs[0]), boardName := NameOf(Join(gs[6..]))))
  {
    hide ParseName, NameOf, Split, Join, Dash, Number, Value, Field;
    FieldIs(s, p, 5);
    NameIs(s);
    var fs := Split(s[p..]);
    if |fs[0]| < 5 {
      ShortNumber(fs[0]);
    }
  }

  lemma {:induction false} FabIs(s: string, p: nat, i: Info)
    requires p <= |s|
    ensures var fs, gs := Split(s[p..]), Split(s);
      var good := |fs| > 2 && |fs[0]| <= 3 && IsNumber(fs[1]) && |gs| > 6
        && 1 <= |NameOf(Join(gs[6..]))| < MAX_SPEC_STRING_LEN;
      && (ParseFab(s, p, i).0 == Success <==> good)
      && (good ==>
          ParseFab(s, p, i).1 == i.(boardFab := fs[0], boardSku := Value(fs[1]), boardName := NameOf(Join(gs[6..]))))
  {
    hide ParseRest, NameOf, Split, Join, Dash, Value, Field, IsNumber;
    FieldIs(s, p, 4);
    if Field(s, p, 4).0 == Success {
      FieldSome(s, p, 4);
      RestIs(s, Dash(s, p) + 1, i.(boardFab := Split(s[p..])[0]));
    }
  }

  /** A spec string is accepted exactly when its parts are as they are to be, and what is read from
      it are those parts. */
  lemma {:induction false} ParseMeans(s: string)
    ensures Parse(s).0 == Success <==> WellFormed(Split(s))
    ensures var fs := Split(s);
      WellFormed(fs) ==> Parse(s).1 == Info(Value(fs[0]), fs[1], Value(fs[2]), NameOf(Join(fs[6..])))
  {
    assert s[0..] == s;
    hide ParseFab, NameOf, Split, Join, Dash, Number, Value, Field, IsNumber;
    FieldIs(s, 0, 5);
    var fs := Split(s);
    if Field(s, 0, 5).0 == Success {
      FieldSome(s, 0, 5);
      ShortNumber(fs[0]);
      FabIs(s, Dash(s, 0) + 1, Info(Number(fs[0]).1, "", 0, ""));
    } else {
      NumberIsShort(fs[0]);
    }
  }

  lemma {:induction false} NumberIsShort(s: string)
    ensures IsNumber(s) ==> |s| < 5
  {
  }

  lemma {:induction false} FieldSome(s: string, i: nat, size: nat)
    requires i <= |s| && Field(s, i, size).0 == Success
    ensures Dash(s, i) < |s|
  {
  }

  // ---------- printing ----------

  /** The decimal digits of a number, with no zeros in front. */
  function Decimal(n: nat): (s: string) {
    if n < 10 then [('0' as int + n) as char] else Decimal(n / 10) + [('0' as int + n % 10) as char]
  }

  function Zeros(n: nat): (s: string)
    ensures |s| == n
  {
    if n == 0 then "" else "0" + Zeros(n - 1)
  }

  /** The format %04u. */
  function Pad4(n: nat): string {
    if |Decimal(n)| < 4 then Zeros(4 - |Decimal(n)|) + Decimal(n) else Decimal(n)
  }

  /** The layout of TegraPlatformSpec. */
  function PrintSpec(id: string, fab: string, sku: string, revision: char, name: string): string {
    id + "-" + fab + "-" + sku + "-" + [revision] + ".0-1-2-" + name + "-"
  }

  /** The layout of TegraPlatformCompatSpec. */
  function PrintCompat(id: nat, fab: string, sku: nat, name: string): string {
    Pad4(id) + "-" + fab + "-" + Pad4(sku) + "--1--" + name + "-"
  }

  lemma {:induction false} DecimalGets(n: nat)
    ensures Digits(Decimal(n)) && Value(Decimal(n)) == n && Decimal(n) != ""
  {
    if n >= 10 {
      DecimalGets(n / 10);
      DigitsAppend(Decimal(n / 10), ('0' as int + n % 10) as char);
    } else {
      DigitsAppend("", ('0' as int + n) as char);
      assert "" + [('0' as int + n) as char] == Decimal(n);
    }
  }

  lemma {:induction false} DigitsAppend(s: string, c: char)
    requires Digits(s) && IsDigit(c)
    ensures Digits(s + [c]) && Value(s + [c]) == Value(s) * 10 + DigitOf(c)
  {
    assert (s + [c])[..|s|] == s;
  }

  lemma {:induction false} ZerosGet(k: nat, s: string)
    requires Digits(s)
    ensures Digits(Zeros(k) + s) && Value(Zeros(k) + s) == Value(s)
  {
    if k == 0 {
      assert Zeros(0) + s == s;
    } else {
      ZerosGet(k - 1, s);
      assert Zeros(k) + s == "0" + (Zeros(k - 1) + s);
      ZeroFront(Zeros(k - 1) + s);
    }
  }

  lemma {:induction false} ZeroFront(s: string)
    requires Digits(s)
    ensures Digits("0" + s) && Value("0" + s) == Value(s)
  {
    assert Digits("0" + s);
    if s == "" {
      assert "0" + s == "0";
      assert Value("0"[..0]) == 0;
    } else {
      var t := "0" + s;
      ZeroFront(s[..|s| - 1]);
      assert t[..|t| - 1] == "0" + s[..|s| - 1];
    }
  }

  lemma {:induction false} DecimalLength(n: nat)
    ensures n <= 9 <==> |Decimal(n)| <= 1
    ensures n <= 99 <==> |Decimal(n)| <= 2
    ensures n <= 999 <==> |Decimal(n)| <= 3
    ensures n <= 9999 <==> |Decimal(n)| <= 4
  {
    if n >= 10 {
      DecimalLength(n / 10);
    }
  }

  /** A number printed with %04u is read back, in four characters just when it is at most 9999. */
  lemma {:induction false} Pad4Gets(n: nat)
    ensures Digits(Pad4(n)) && Value(Pad4(n)) == n
    ensures n <= 9999 ==> |Pad4(n)| == 4
    ensures n > 9999 ==> |Pad4(n)| > 4
  {
    DecimalGets(n);
    DecimalLength(n);
    var d := Decimal(n);
    if |d| < 4 {
      ZerosGet(4 - |d|, d);
    }
  }

  lemma {:induction false} NoDash(s: string)
    requires Digits(s)
    ensures '-' !in s
  {
  }

  // ---------- what is printed is read back ----------

  lemma {:induction false} DashAfter(a: string, b: string, i: nat)
    requires '-' !in a && i <= |a|
    ensures Dash(a + "-" + b, i) == |a|
    decreases |a| - i
  {
    var s := a + "-" + b;
    if i < |a| {
      assert s[i] == a[i];
      DashAfter(a, b, i + 1);
    } else {
      assert s[i] == '-';
    }
  }

  lemma {:induction false} SplitHead(a: string, b: string)
    requires '-' !in a
    ensures Split(a + "-" + b) == [a] + Split(b)
  {
    DashAfter(a, b, 0);
    var s := a + "-" + b;
    assert s[..|a|] == a && s[|a| + 1..] == b;
  }

  /** The parts of three fields, three more, and the rest. */
  lemma {:induction false} SplitSix(a: string, b: string, c: string, d: string, e: string, f: string, t: string)
    requires '-' !in a && '-' !in b && '-' !in c && '-' !in d && '-' !in e && '-' !in f
    ensures Split(a + "-" + (b + "-" + (c + "-" + (d + "-" + (e + "-" + (f + "-" + t)))))) ==
      [a, b, c, d, e, f] + Split(t)
  {
    hide Split;
    SplitHead(f, t);
    SplitHead(e, f + "-" + t);
    SplitHead(d, e + "-" + (f + "-" + t));
    SplitHead(c, d + "-" + (e + "-" + (f + "-" + t)));
    SplitHead(b, c + "-" + (d + "-" + (e + "-" + (f + "-" + t))));
    SplitHead(a, b + "-" + (c + "-" + (d + "-" + (e + "-" + (f + "-" + t)))));
  }

  lemma {:induction false} Tail(front: seq<string>, name: string)
    requires |front| == 6
    ensures var fs := front + Split(name + "-"); |fs| > 6 && fs[..6] == front && NameOf(Join(fs[6..])) == name
  {
    JoinSplit(name + "-");
    hide Split, Join;
    var fs := front + Split(name + "-");
    assert fs[6..] == Split(name + "-");
    assert (name + "-")[..|name|] == name;
  }

  lemma {:induction false} CompatShape(a: string, b: string, c: string, t: string)
    ensures a + "-" + b + "-" + c + "--1--" + t ==
      a + "-" + (b + "-" + (c + "-" + ("" + "-" + ("1" + "-" + ("" + "-" + t)))))
  {
  }

  lemma {:induction false} CompatParts(id: nat, fab: string, sku: nat, name: string)
    requires '-' !in fab
    ensures Split(PrintCompat(id, fab, sku, name)) == [Pad4(id), fab, Pad4(sku), "", "1", ""] + Split(name + "-")
  {
    Pad4Gets(id);
    Pad4Gets(sku);
    NoDash(Pad4(id));
    NoDash(Pad4(sku));
    CompatShape(Pad4(id), fab, Pad4(sku), name + "-");
    assert PrintCompat(id, fab, sku, name) == Pad4(id) + "-" + fab + "-" + Pad4(sku) + "--1--" + (name + "-") by {
      hide Pad4;
    }
    hide *;
    SplitSix(Pad4(id), fab, Pad4(sku), "", "1", "", name + "-");
  }

  lemma {:induction false} SpecParts(id: string, fab: string, sku: string, revision: char, name: string)
    requires '-' !in id && '-' !in fab && '-' !in sku && revision != '-'
    ensures Split(PrintSpec(id, fab, sku, revision, name)) ==
      [id, fab, sku, [revision] + ".0", "1", "2"] + Split(name + "-")
  {
    hide Split;
    var r := [revision] + ".0";
    SplitSix(id, fab, sku, r, "1", "2", name + "-");
    assert PrintSpec(id, fab, sku, revision, name) ==
      id + "-" + (fab + "-" + (sku + "-" + (r + "-" + ("1" + "-" + ("2" + "-" + (name + "-"))))));
  }

  lemma {:induction false} DashInside(fab: string, t: string, i: nat)
    requires i <= |fab| && '-' in fab[i..]
    ensures Dash(fab + t, i) < |fab|
    decreases |fab| - i
  {
    if fab[i] != '-' {
      assert fab[i..][1..] == fab[i + 1..];
      assert fab[i..] == [fab[i]] + fab[i + 1..];
      DashInside(fab, t, i + 1);
    }
  }

  /** A FAB with a dash in it is cut short. */
  lemma {:induction false} FabCut(id: string, fab: string, t: string)
    requires '-' !in id && '-' in fab
    ensures var fs := Split(id + "-" + (fab + t)); |fs| > 1 && |fs[1]| < |fab|
  {
    SplitHead(id, fab + t);
    assert fab[0..] == fab;
    DashInside(fab, t, 0);
    var u := fab + t;
    assert |Split(u)[0]| == Dash(u, 0);
  }

  /** The fields a spec string can carry. */
  ghost predicate Carried(fab: string, name: string) {
    '-' !in fab && |fab| <= 3 && 1 <= |name| < MAX_SPEC_STRING_LEN
  }

  lemma {:induction false} PartsParse(s: string, a: string, b: string, c: string, d: string, e: string, f: string,
                                      name: string)
    requires Split(s) == [a, b, c, d, e, f] + Split(name + "-")
    ensures Parse(s).0 == Success <==> IsNumber(a) && |b| <= 3 && IsNumber(c) && 1 <= |name| < MAX_SPEC_STRING_LEN
    ensures Parse(s).0 == Success ==> Parse(s).1 == Info(Value(a), b, Value(c), name)
  {
    ParseMeans(s);
    Tail([a, b, c, d, e, f], name);
    hide Split, Join, Parse, NameOf, IsNumber;
    var fs := Split(s);
    assert fs[0] == fs[..6][0] && fs[1] == fs[..6][1] && fs[2] == fs[..6][2];
  }

  lemma {:induction false} CutParse(s: string, fab: string)
    requires |Split(s)| > 1 && |Split(s)[1]| < |fab|
    ensures Parse(s).0 == Success ==> Parse(s).1.boardFab != fab
  {
    ParseMeans(s);
    hide Split, Join, Parse, NameOf, IsNumber;
  }

  function Dashes(s: string): nat {
    if s == "" then 0 else (if s[0] == '-' then 1 else 0) + Dashes(s[1..])
  }

  lemma {:induction false} DashesConcat(a: string, b: string)
    ensures Dashes(a + b) == Dashes(a) + Dashes(b)
  {
    if a == "" {
      assert a + b == b;
    } else {
      assert (a + b)[1..] == a[1..] + b;
      DashesConcat(a[1..], b);
    }
  }

  lemma {:induction false} DashesIn(s: string)
    ensures '-' in s <==> Dashes(s) > 0
  {
    if s != "" {
      assert s == [s[0]] + s[1..];
      DashesIn(s[1..]);
    }
  }

  lemma {:induction false} NoDashBefore(s: string, i: nat)
    requires i <= |s|
    ensures Dashes(s[i..Dash(s, i)]) == 0
    decreases |s| - i
  {
    var d := Dash(s, i);
    if i < |s| && s[i] != '-' {
      NoDashBefore(s, i + 1);
      assert s[i..d][1..] == s[i + 1..d];
    }
  }

  lemma {:induction false} PastDashesCount(s: string, i: nat, n: nat)
    requires i <= |s| && PastDashes(s, i, n).Some?
    ensures Dashes(s[i..PastDashes(s, i, n).value]) == n
    decreases n
  {
    if n > 0 {
      var d, p := Dash(s, i), PastDashes(s, i, n).value;
      NoDashBefore(s, i);
      DashAt(s, i);
      PastDashesCount(s, d + 1, n - 1);
      hide PastDashes, Dash;
      assert s[i..p] == s[i..d] + ("-" + s[d + 1..p]);
      DashesConcat(s[i..d], "-" + s[d + 1..p]);
      DashesConcat("-", s[d + 1..p]);
      assert Dashes("-") == 1 + Dashes(""[..]);
    }
  }

  lemma {:induction false} ParseHasName(s: string)
    requires Parse(s).0 == Success
    ensures PastDashes(s, 0, 6).Some? && Parse(s).1.boardName == NameOf(s[PastDashes(s, 0, 6).value..])
  {
    hide Number, Field, NameOf, PastDashes;
  }

  /** With a dash too many ahead of the name, what is read as the name is longer. */
  lemma {:induction false} ExtraDash(s: string, a: string, name: string)
    requires s == a + name + "-" && Dashes(a) > 6 && Parse(s).0 == Success
    ensures |Parse(s).1.boardName| > |name|
  {
    ParseHasName(s);
    PastDashesCount(s, 0, 6);
    hide Parse, PastDashes, Dashes;
    var p := PastDashes(s, 0, 6).value;
    assert s[0..p] == s[..p];
    if p >= |a| {
      assert s[..p] == a + s[|a|..p];
      DashesConcat(a, s[|a|..p]);
    }
  }

  /** What stands ahead of the name has six dashes and those of the three fields. */
  lemma {:induction false} SpecDashes(id: string, fab: string, sku: string, revision: char)
    requires revision != '-'
    ensures Dashes(id + "-" + fab + "-" + sku + "-" + [revision] + ".0-1-2-") ==
      Dashes(id) + Dashes(fab) + Dashes(sku) + 6
  {
    RevisionDashes(revision);
    assert Dashes("-") == 1 + Dashes(""[..]);
    hide Dashes;
    var t := [revision] + ".0-1-2-";
    assert id + "-" + fab + "-" + sku + "-" + [revision] + ".0-1-2-" == id + ("-" + (fab + ("-" + (sku + ("-" + t)))));
    DashesConcat(id, "-" + (fab + ("-" + (sku + ("-" + t)))));
    DashesConcat("-", fab + ("-" + (sku + ("-" + t))));
    DashesConcat(fab, "-" + (sku + ("-" + t)));
    DashesConcat("-", sku + ("-" + t));
    DashesConcat(sku, "-" + t);
    DashesConcat("-", t);
  }

  lemma {:induction false} RevisionDashes(revision: char)
    requires revision != '-'
    ensures Dashes([revision] + ".0-1-2-") == 3
  {
    var t := [revision] + ".0-1-2-";
    assert t[1..] == ".0-1-2-" && ".0-1-2-"[1..] == "0-1-2-" && "0-1-2-"[1..] == "-1-2-" && "-1-2-"[1..] == "1-2-";
    assert "1-2-"[1..] == "-2-" && "-2-"[1..] == "2-" && "2-"[1..] == "-" && "-"[1..] == "";
    assert Dashes("") == 0 && Dashes("-") == 1 && Dashes("2-") == 1 && Dashes("-2-") == 2;
    assert Dashes("1-2-") == 2 && Dashes("-1-2-") == 3 && Dashes("0-1-2-") == 3;
  }

  /** Reading a TegraPlatformSpec back gives the FAB and the name it was printed with exactly when
      the id and the SKU are numbers of at most four digits, the FAB has no dash and at most three
      characters, and the name fits; and then it gives the id and the SKU as well. */
  lemma {:induction false} SpecRoundTrip(id: string, fab: string, sku: string, revision: char, name: string)
    requires revision != '-'
    ensures var (st, i) := Parse(PrintSpec(id, fab, sku, revision, name));
      && (st == Success && i.boardFab == fab && i.boardName == name
          <==> IsNumber(id) && IsNumber(sku) && Carried(fab, name))
      && (IsNumber(id) && IsNumber(sku) && Carried(fab, name) ==> i == Info(Value(id), fab, Value(sku), name))
  {
    NumberHasNoDash(id);
    NumberHasNoDash(sku);
    DashesIn(id);
    DashesIn(fab);
    DashesIn(sku);
    SpecDashes(id, fab, sku, revision);
    var s, a := PrintSpec(id, fab, sku, revision, name), id + "-" + fab + "-" + sku + "-" + [revision] + ".0-1-2-";
    assert s == a + name + "-";
    hide Split, Parse, PrintSpec, IsNumber, Dashes;
    if '-' in id || '-' in fab || '-' in sku {
      if Parse(s).0 == Success {
        ExtraDash(s, a, name);
      }
    } else {
      SpecParts(id, fab, sku, revision, name);
      PartsParse(s, id, fab, sku, [revision] + ".0", "1", "2", name);
    }
  }

  lemma {:induction false} NumberHasNoDash(s: string)
    ensures IsNumber(s) ==> '-' !in s
  {
  }

  lemma {:induction false} Pad4IsNumber(n: nat)
    ensures IsNumber(Pad4(n)) <==> n <= 9999
    ensures Digits(Pad4(n)) && Value(Pad4(n)) == n && '-' !in Pad4(n)
  {
    Pad4Gets(n);
    hide Pad4, Digits, Value;
    NoDash(Pad4(n));
  }

  /** Reading a TegraPlatformCompatSpec back gives all it was printed with exactly when the id and
      the SKU are below 10000, the FAB has no dash and at most three characters, and the name fits. */
  lemma {:induction false} CompatRoundTrip(id: nat, fab: string, sku: nat, name: string)
    ensures Parse(PrintCompat(id, fab, sku, name)) == (Success, Info(id, fab, sku, name))
      <==> id <= 9999 && sku <= 9999 && Carried(fab, name)
  {
    var s := PrintCompat(id, fab, sku, name);
    Pad4IsNumber(id);
    Pad4IsNumber(sku);
    if '-' in fab {
      var t := "-" + Pad4(sku) + "--1--" + name + "-";
      assert s == Pad4(id) + "-" + (fab + t) by {
        hide Pad4;
      }
      hide Split, Parse, PrintCompat, IsNumber, Pad4;
      FabCut(Pad4(id), fab, t);
      CutParse(s, fab);
    } else {
      hide Split, Parse, PrintCompat, IsNumber, Pad4;
      CompatParts(id, fab, sku, name);
      PartsParse(s, Pad4(id), fab, Pad4(sku), "", "1", "", name);
    }
  }

  // ---------- which name and which FAB ----------

  predicate Contains(s: string, t: string) {
    t <= s || (s != "" && Contains(s[1..], t))
  }

  /** Somewhere in s there is t. */
  lemma {:induction false} ContainsIs(s: string, t: string)
    ensures Contains(s, t) <==> exists i :: 0 <= i <= |s| && t <= s[i..]
  {
    if t <= s {
      assert s[0..] == s;
    } else if s != "" {
      ContainsIs(s[1..], t);
      forall i | 0 <= i <= |s[1..]| && t <= s[1..][i..] ensures t <= s[i + 1..] {
        assert s[1..][i..] == s[i + 1..];
      }
      forall i | 0 <= i <= |s| && t <= s[i..] ensures i > 0 && t <= s[1..][i - 1..] {
        assert s[0..] == s;
        assert i > 0 ==> s[1..][i - 1..] == s[i..];
      }
    }
  }

  function NumericFab(fab: string): nat
    requires |fab| >= 3
  {
    if Digits(fab[..3]) then DigitOf(fab[0]) * 100 + DigitOf(fab[1]) * 10 + DigitOf(fab[2]) else 0
  }

  /** What the device tree says of the board. */
  datatype Config = Config(nanoe8gb: bool, isSuper: bool)

  /** ResolveCompatSpecParams: the board name and the compatible FAB. */
  function Resolve(id: nat, sku: nat, fab: string, config: Config): (string, string)
    requires |fab| >= 3
  {
    if id == BOARD_ID_AGX_ORIN then ResolveAgxOrin(sku, fab, config)
    else if id == BOARD_ID_ORIN_NANO then ResolveOrinNano(sku, config)
    else if id == BOARD_ID_AGX_THOR then ResolveAgxThor(sku, fab)
    else ("jetson-unknown", "000")
  }

  function ResolveAgxOrin(sku: nat, fab: string, config: Config): (string, string)
    requires |fab| >= 3
  {
    var compat := if sku == 0 && (fab[0] == 'T' || fab[0] == 'E' || NumericFab(fab) < 300) then "000" else "300";
    var name := if sku == 8 then "jetson-agx-orin-devkit-industrial" else "jetson-agx-orin-devkit";
    (if sku != 8 && config.isSuper then "jetson-agx-orin-devkit-super" else name, compat)
  }

  function ResolveOrinNano(sku: nat, config: Config): (string, string) {
    (if config.nanoe8gb then if config.isSuper then "jetson-orin-nanoe8gb-devkit-super"
     else "jetson-orin-nanoe8gb-devkit"
     else if config.isSuper || sku == 5 then BOARD_NAME_ORIN_NANO_DEVKIT_SUPER else "jetson-orin-nano-devkit", "000")
  }

  function ResolveAgxThor(sku: nat, fab: string): (string, string)
    requires |fab| >= 3
  {
    if sku == 0 then ("jetson-agx-thor-t4000", "000")
    else
      var late := (fab[0] == 'E' && fab[1] == 'B' && fab[2] >= '9') || (fab[0] == 'T' && fab[1] == 'S' && fab[2] >= '5')
               || (fab[0] == 'R' && fab[1] == 'C' && fab[2] >= '2') || NumericFab(fab) > 400;
      ("jetson-agx-thor-devkit", if sku == 8 && late then "401" else "000")
  }

  lemma {:induction false} ResolvedFits(id: nat, sku: nat, fab: string, config: Config)
    requires |fab| >= 3
    ensures var (name, compat) := Resolve(id, sku, fab, config);
      1 <= |name| <= 33 && (compat == "000" || compat == "300" || compat == "401")
  {
    hide NumericFab;
  }

  predicate LateThor(series: string, c: char) {
    (series == "EB" && c >= '9') || (series == "TS" && c >= '5') || (series == "RC" && c >= '2')
  }

  /** Which boards get which FAB. */
  lemma {:induction false} ResolvedFab(id: nat, sku: nat, fab: string, config: Config)
    requires |fab| >= 3
    ensures var compat, n := Resolve(id, sku, fab, config).1, NumericFab(fab);
      && (compat == "300" <==> id == 3701 && (sku != 0 || (fab[0] != 'T' && fab[0] != 'E' && n >= 300)))
      && (compat == "401" <==> id == 3834 && sku == 8 && (n > 400 || LateThor(fab[..2], fab[2])))
      && compat in {"000", "300", "401"}
  {
    hide NumericFab;
    assert "000"[0] == '0' && "300"[0] == '3' && "401"[0] == '4';
    assert "EB"[0] == 'E' && "EB"[1] == 'B' && "TS"[0] == 'T' && "TS"[1] == 'S' && "RC"[0] == 'R' && "RC"[1] == 'C';
    assert fab[..2] == [fab[0], fab[1]] && "EB" == ['E', 'B'] && "TS" == ['T', 'S'] && "RC" == ['R', 'C'];
  }

  /** A FAB counts as a number only when all of it is digits. */
  lemma {:induction false} NumericFabIs(fab: string)
    requires |fab| == 3
    ensures NumericFab(fab) == if Digits(fab) then Value(fab) else 0
  {
    assert fab[..3] == fab;
    if Digits(fab) {
      assert fab[..2][..1] == fab[..1] && fab[..1][..0] == "";
      assert Value(fab[..1]) == DigitOf(fab[0]) && Value(fab[..2]) == Value(fab[..1]) * 10 + DigitOf(fab[1]);
    }
  }

  /** Which boards get which name. */
  lemma {:induction false} ResolvedName(id: nat, sku: nat, fab: string, config: Config)
    requires |fab| >= 3
    ensures var name := Resolve(id, sku, fab, config).0;
      && (name == "jetson-agx-orin-devkit-industrial" <==> id == 3701 && sku == 8)
      && (name == "jetson-agx-orin-devkit-super" <==> id == 3701 && sku != 8 && config.isSuper)
      && (name == "jetson-agx-orin-devkit" <==> id == 3701 && sku != 8 && !config.isSuper)
      && (name == "jetson-orin-nanoe8gb-devkit-super" <==> id == 3767 && config.nanoe8gb && config.isSuper)
      && (name == "jetson-orin-nanoe8gb-devkit" <==> id == 3767 && config.nanoe8gb && !config.isSuper)
      && (name == "jetson-orin-nano-devkit-super"
          <==> id == 3767 && !config.nanoe8gb && (config.isSuper || sku == 5))
      && (name == "jetson-orin-nano-devkit" <==> id == 3767 && !config.nanoe8gb && !config.isSuper && sku != 5)
      && (name == "jetson-agx-thor-t4000" <==> id == 3834 && sku == 0)
      && (name == "jetson-agx-thor-devkit" <==> id == 3834 && sku != 0)
      && (name == "jetson-unknown" <==> id !in {3701, 3767, 3834})
  {
    hide NumericFab;
    var name := Resolve(id, sku, fab, config).0;
    if |name| == 33 {
      assert name[7] == if id == 3701 then 'a' else 'o';
    }
  }

  // ---------- the two generators ----------

  /** A buffer as a C string. */
  function CString(s: string): (t: string)
    ensures |t| <= |s|
  {
    if s == "" || s[0] == '\0' then "" else [s[0]] + CString(s[1..])
  }

  /** It is all that comes ahead of the first NUL. */
  lemma {:induction false} CStringCuts(s: string)
    ensures CString(s) <= s && '\0' !in CString(s) && (|CString(s)| < |s| ==> s[|CString(s)|] == '\0')
  {
    if s != "" && s[0] != '\0' {
      CStringCuts(s[1..]);
    }
  }

  /** The part number of the board, as it is in its EEPROM. */
  datatype Board = Board(tegraFormat: bool, id: string, fab: string, sku: string, revision: char)

  predicate BoardOk(b: Board) {
    |b.id| == 4 && |b.fab| == 3 && |b.sku| == 4
  }

  function BoardNumber(s: string): nat {
    if Digits(s) then Value(s) else 0
  }

  function Revision(c: char): (r: char)
    ensures 'A' <= r <= 'Z' && ('A' <= c <= 'Z' ==> r == c) && (r != 'A' ==> r == c)
  {
    if 'A' <= c <= 'Z' then c else 'A'
  }

  /** GeneratePlatformSpecString. */
  function GenerateSpec(b: Board, config: Config, size: nat): (Status, string)
    requires BoardOk(b)
  {
    if size < MAX_SPEC_STRING_LEN then (BufferTooSmall, "")
    else if !b.tegraFormat then (Unsupported, "")
    else
      var name := Resolve(BoardNumber(b.id), BoardNumber(b.sku), b.fab, config).0;
      var text := PrintSpec(CString(b.id), CString(b.fab), CString(b.sku), Revision(b.revision), name);
      if |text| >= size - 1 then (DeviceError, "") else (Success, text)
  }

  /** A TegraPlatformSpec can be made of every part number in the format of Tegra boards: it always
      fits. */
  lemma {:induction false} GenerateSpecAnswers(b: Board, config: Config)
    requires BoardOk(b)
    ensures var (st, text) := GenerateSpec(b, config, MAX_SPEC_STRING_LEN);
      if b.tegraFormat then
        st == Success && text == PrintSpec(CString(b.id), CString(b.fab), CString(b.sku), Revision(b.revision),
                                           Resolve(BoardNumber(b.id), BoardNumber(b.sku), b.fab, config).0)
      else st == Unsupported && text == ""
  {
    ResolvedFits(BoardNumber(b.id), BoardNumber(b.sku), b.fab, config);
    hide Resolve, BoardNumber, CString;
  }

  predicate IsOrinNanoDevkitSku5NonSuper(i: Info, s: string) {
    i.boardId == BOARD_ID_ORIN_NANO && i.boardSku == 5 && !Contains(s, BOARD_NAME_ORIN_NANO_DEVKIT_SUPER)
  }

  function CompatName(i: Info): string {
    if IsOrinNanoDevkitSku5NonSuper(i, i.boardName) then BOARD_NAME_ORIN_NANO_DEVKIT_SUPER else i.boardName
  }

  /** GeneratePlatformCompatSpecString, with the record it caches. */
  function GenerateCompat(i: Info, config: Config, size: nat): (Status, string, Info) {
    if size < MAX_SPEC_STRING_LEN then (BufferTooSmall, "", EMPTY)
    else if |i.boardFab| < 3 || i.boardName == "" then (InvalidParameter, "", EMPTY)
    else
      var fab := Resolve(i.boardId, i.boardSku, i.boardFab, config).1;
      var text := PrintCompat(i.boardId, fab, i.boardSku, CompatName(i));
      if |text| >= size - 1 then (DeviceError, "", EMPTY)
      else if |fab| >= 4 || |CompatName(i)| >= MAX_SPEC_STRING_LEN then (BufferTooSmall, "", EMPTY)
      else (Success, text, Info(i.boardId, fab, i.boardSku, CompatName(i)))
  }

  /** What GenerateCompat answers when it succeeds. */
  lemma {:induction false} GeneratedCompat(i: Info, config: Config, size: nat)
    requires GenerateCompat(i, config, size).0 == Success
    ensures var (st, text, made) := GenerateCompat(i, config, size);
      && text == PrintCompat(i.boardId, made.boardFab, i.boardSku, CompatName(i)) && |text| < size - 1
      && made == Info(i.boardId, made.boardFab, i.boardSku, CompatName(i))
      && Carried(made.boardFab, CompatName(i))
  {
    ResolvedFits(i.boardId, i.boardSku, i.boardFab, config);
    hide Resolve, PrintCompat, Contains;
  }

  /** A compat string that has been generated is read back as the record cached with it exactly when
      the id and the SKU have at most four digits. */
  lemma {:induction false} ReparseReproduces(i: Info, config: Config, size: nat)
    requires GenerateCompat(i, config, size).0 == Success
    ensures var (st, text, made) := GenerateCompat(i, config, size);
      Parse(text) == (Success, made) <==> i.boardId <= 9999 && i.boardSku <= 9999
  {
    hide *;
    GeneratedCompat(i, config, size);
    var made := GenerateCompat(i, config, size).2;
    CompatRoundTrip(i.boardId, made.boardFab, i.boardSku, CompatName(i));
  }

  /** What has been read has an id and an SKU of at most four digits. */
  lemma {:induction false} ParsedIsSmall(s: string)
    requires Parse(s).0 == Success
    ensures Parse(s).1.boardId <= 9999 && Parse(s).1.boardSku <= 9999
  {
    ParseMeans(s);
    hide Split, Join, Parse, NameOf, IsNumber;
    var fs := Split(s);
    NumberIsShort(fs[0]);
    NumberIsShort(fs[2]);
    ShortNumber(fs[0]);
    ShortNumber(fs[2]);
  }

  // ---------- the two variables ----------

  /** The variables TegraPlatformSpec and TegraPlatformCompatSpec. */
  datatype Vars = Vars(spec: Option<string>, compat: Option<string>)

  /** A variable is read into a buffer that holds all but one of its bytes. */
  predicate TooLong(v: Option<string>) {
    v.Some? && |v.value| + 1 > MAX_SPEC_STRING_LEN - 1
  }

  /** EnsurePlatformSpecVariables: the status, the variables, and what is cached. */
  ghost function Ensure(v: Vars, b: Board, config: Config): (Status, Vars, Info, Info)
    requires BoardOk(b)
  {
    if TooLong(v.spec) then (BufferTooSmall, v, EMPTY, EMPTY)
    else
      var (st, spec) := if v.spec.Some? then (Success, v.spec.value) else GenerateSpec(b, config, MAX_SPEC_STRING_LEN);
      if st != Success then (st, v, EMPTY, EMPTY)
      else
        EnsureCompat(v.(spec := Some(spec)), spec, v.spec.None?, config)
  }

  /** Ensure once there is a TegraPlatformSpec, new or not. */
  ghost function EnsureCompat(v: Vars, spec: string, isNew: bool, config: Config): (Status, Vars, Info, Info) {
    var (st, i) := Parse(spec);
    if st != Success then (st, v, i, EMPTY)
    else if TooLong(v.compat) then (BufferTooSmall, v, i, EMPTY)
    else
      var make := isNew || v.compat.None? || IsOrinNanoDevkitSku5NonSuper(i, v.compat.value);
      if !make then (Parse(v.compat.value).0, v, i, Parse(v.compat.value).1)
      else
        var (st', text, made) := GenerateCompat(i, config, MAX_SPEC_STRING_LEN);
        if st' != Success then (st', v, i, EMPTY)
        else (Parse(text).0, v.(compat := Some(text)), i, Parse(text).1)
  }

  /** Both variables are there afterwards, and what is cached is what they say; a compat string that
      has just been made never fails to be read. */
  lemma {:induction false} EnsureCaches(v: Vars, b: Board, config: Config)
    requires BoardOk(b) && Ensure(v, b, config).0 == Success
    ensures var (st, w, i, c) := Ensure(v, b, config);
      && w.spec.Some? && w.compat.Some? && !TooLong(w.spec) && !TooLong(w.compat)
      && Parse(w.spec.value) == (Success, i) && Parse(w.compat.value) == (Success, c)
      && !IsOrinNanoDevkitSku5NonSuper(i, w.compat.value)
      && (v.spec.Some? ==> w.spec == v.spec)
      && (w.compat != v.compat ==> GenerateCompat(i, config, MAX_SPEC_STRING_LEN) == (Success, w.compat.value, c))
  {
    hide Parse, GenerateSpec, GenerateCompat, IsOrinNanoDevkitSku5NonSuper;
    GeneratedSpecFits(b, config);
    var (st, w, i, c) := Ensure(v, b, config);
    var spec := w.spec.value;
    if GenerateCompat(i, config, MAX_SPEC_STRING_LEN).0 == Success {
      ParsedIsSmall(spec);
      ReparseReproduces(i, config, MAX_SPEC_STRING_LEN);
      GeneratedIsSuper(i, config);
    }
  }

  lemma {:induction false} GeneratedSpecFits(b: Board, config: Config)
    requires BoardOk(b)
    ensures var (st, text) := GenerateSpec(b, config, MAX_SPEC_STRING_LEN); st == Success ==> !TooLong(Some(text))
  {
    hide PrintSpec, Resolve;
  }

  /** A compat string for the non-super board is never left without the super name. */
  lemma {:induction false} GeneratedIsSuper(i: Info, config: Config)
    requires GenerateCompat(i, config, MAX_SPEC_STRING_LEN).0 == Success
    ensures var text := GenerateCompat(i, config, MAX_SPEC_STRING_LEN).1;
      !IsOrinNanoDevkitSku5NonSuper(i, text) && !TooLong(Some(text))
  {
    GeneratedCompat(i, config, MAX_SPEC_STRING_LEN);
    hide GenerateCompat, Contains, Pad4;
    var (st, text, made) := GenerateCompat(i, config, MAX_SPEC_STRING_LEN);
    var front := Pad4(i.boardId) + "-" + made.boardFab + "-" + Pad4(i.boardSku) + "--1--";
    if i.boardId == BOARD_ID_ORIN_NANO && i.boardSku == 5 {
      ContainsSuper(front, CompatName(i), "-");
    }
  }

  lemma {:induction false} ContainsSuper(front: string, name: string, back: string)
    requires Contains(name, BOARD_NAME_ORIN_NANO_DEVKIT_SUPER)
    ensures Contains(front + name + back, BOARD_NAME_ORIN_NANO_DEVKIT_SUPER)
  {
    ContainsTail(name, back, BOARD_NAME_ORIN_NANO_DEVKIT_SUPER);
    ContainsHead(front, name + back, BOARD_NAME_ORIN_NANO_DEVKIT_SUPER);
    assert front + (name + back) == front + name + back;
  }

  lemma {:induction false} ContainsHead(a: string, s: string, t: string)
    requires Contains(s, t)
    ensures Contains(a + s, t)
  {
    if a == "" {
      assert a + s == s;
    } else {
      assert (a + s)[1..] == a[1..] + s;
      ContainsHead(a[1..], s, t);
    }
  }

  lemma {:induction false} ContainsTail(s: string, b: string, t: string)
    requires Contains(s, t)
    ensures Contains(s + b, t)
  {
    if t <= s {
      assert t <= s + b;
    } else {
      assert (s + b)[1..] == s[1..] + b;
      ContainsTail(s[1..], b, t);
    }
  }

  /** Once the variables have settled they stay: a second run, whatever board and device tree it
      sees, writes nothing and caches the same. */
  lemma {:induction false} EnsureTwice(v: Vars, b: Board, config: Config, b': Board, config': Config)
    requires BoardOk(b) && BoardOk(b') && Ensure(v, b, config).0 == Success
    ensures Ensure(Ensure(v, b, config).1, b', config') == Ensure(v, b, config)
  {
    EnsureCaches(v, b, config);
    var r := Ensure(v, b, config);
    EnsureSettled(r.1, r.2, r.3, b', config');
  }

  lemma {:induction false} EnsureSettled(w: Vars, i: Info, c: Info, b: Board, config: Config)
    requires BoardOk(b) && w.spec.Some? && w.compat.Some? && !TooLong(w.spec) && !TooLong(w.compat)
    requires Parse(w.spec.value) == (Success, i) && Parse(w.compat.value) == (Success, c)
    requires !IsOrinNanoDevkitSku5NonSuper(i, w.compat.value)
    ensures Ensure(w, b, config) == (Success, w, i, c)
  {
    hide Parse, GenerateSpec, GenerateCompat, IsOrinNanoDevkitSku5NonSuper, TooLong;
  }

  lemma {:induction false} NoNulCString(s: string)
    requires '\0' !in s
    ensures CString(s) == s
  {
    if s != "" {
      NoNulCString(s[1..]);
      assert s == [s[0]] + s[1..];
    }
  }

  /** A board whose part number is in order: digits for id and SKU, a FAB without dash or NUL. */
  ghost predicate InOrder(b: Board) {
    BoardOk(b) && b.tegraFormat && Digits(b.id) && Digits(b.sku) && '-' !in b.fab && '\0' !in b.fab
  }

  lemma {:induction false} GenerateInOrder(b: Board, config: Config)
    requires InOrder(b)
    ensures var name := Resolve(Value(b.id), Value(b.sku), b.fab, config).0;
      && GenerateSpec(b, config, MAX_SPEC_STRING_LEN) ==
        (Success, PrintSpec(b.id, b.fab, b.sku, Revision(b.revision), name))
      && Parse(PrintSpec(b.id, b.fab, b.sku, Revision(b.revision), name)) ==
        (Success, Info(Value(b.id), b.fab, Value(b.sku), name))
  {
    NoNulCString(b.id);
    NoNulCString(b.fab);
    NoNulCString(b.sku);
    ResolvedFits(Value(b.id), Value(b.sku), b.fab, config);
    var name := Resolve(Value(b.id), Value(b.sku), b.fab, config).0;
    NoDash(b.id);
    NoDash(b.sku);
    assert Carried(b.fab, name) && IsNumber(b.id) && IsNumber(b.sku);
    hide CString, Resolve, Parse, Value, Digits, Carried, IsNumber;
    SpecRoundTrip(b.id, b.fab, b.sku, Revision(b.revision), name);
  }

  lemma {:induction false} GenerateCompatFits(i: Info, config: Config)
    requires |i.boardFab| >= 3 && i.boardId <= 9999 && i.boardSku <= 9999 && 1 <= |i.boardName| <= 33
    ensures GenerateCompat(i, config, MAX_SPEC_STRING_LEN).0 == Success
  {
    Pad4Gets(i.boardId);
    Pad4Gets(i.boardSku);
    ResolvedFits(i.boardId, i.boardSku, i.boardFab, config);
    hide Resolve, Pad4, Contains, Digits, Value;
  }

  /** With no TegraPlatformSpec and a board in order, both variables are made, whatever compat string
      there was, and what is cached of each is what it was made from. */
  lemma {:induction false} EnsureFromNothing(b: Board, compat: Option<string>, config: Config)
    requires InOrder(b) && (compat.Some? ==> |compat.value| <= 254)
    ensures var (name, fab) := Resolve(Value(b.id), Value(b.sku), b.fab, config);
      var (st, v, i, c) := Ensure(Vars(None, compat), b, config);
      && st == Success && v.spec == Some(PrintSpec(b.id, b.fab, b.sku, Revision(b.revision), name))
      && i == Info(Value(b.id), b.fab, Value(b.sku), name)
      && v.compat == Some(PrintCompat(Value(b.id), fab, Value(b.sku), CompatName(i)))
      && c == Info(Value(b.id), fab, Value(b.sku), CompatName(i))
  {
    GenerateInOrder(b, config);
    var (name, fab) := Resolve(Value(b.id), Value(b.sku), b.fab, config);
    var i := Info(Value(b.id), b.fab, Value(b.sku), name);
    MadeInOrder(b, config);
    hide GenerateSpec, GenerateCompat, Parse, Resolve, Value, Digits, IsOrinNanoDevkitSku5NonSuper, PrintSpec,
      PrintCompat, CompatName;
  }

  lemma {:induction false} MadeInOrder(b: Board, config: Config)
    requires InOrder(b)
    ensures var (name, fab) := Resolve(Value(b.id), Value(b.sku), b.fab, config);
      var i := Info(Value(b.id), b.fab, Value(b.sku), name);
      var text, made := PrintCompat(Value(b.id), fab, Value(b.sku), CompatName(i)),
        Info(Value(b.id), fab, Value(b.sku), CompatName(i));
      GenerateCompat(i, config, MAX_SPEC_STRING_LEN) == (Success, text, made) && Parse(text) == (Success, made)
  {
    var (name, fab) := Resolve(Value(b.id), Value(b.sku), b.fab, config);
    ResolvedFits(Value(b.id), Value(b.sku), b.fab, config);
    FourDigits(b.id);
    FourDigits(b.sku);
    var i := Info(Value(b.id), b.fab, Value(b.sku), name);
    GenerateCompatFits(i, config);
    CompatFab(i, config);
    hide GenerateCompat, Parse, Resolve, Value, Digits, PrintCompat, CompatName;
    GeneratedCompat(i, config, MAX_SPEC_STRING_LEN);
    ReparseReproduces(i, config, MAX_SPEC_STRING_LEN);
  }

  /** The compat string there is can stay: it is not one without the super name on an Orin Nano with
      SKU 5. */
  ghost predicate Stays(i: Info, compat: Option<string>) {
    compat.Some? &&
    !(i.boardId == 3767 && i.boardSku == 5 && !Contains(compat.value, "jetson-orin-nano-devkit-super"))
  }

  /** With a TegraPlatformSpec: it succeeds exactly when that fits and can be read and the compat
      string, if there is one, fits, and when that can be read too, or else a new one can be made from
      a FAB of three characters and fits. What stays stays, and a new one has the name and the FAB for
      the board. */
  lemma {:induction false} EnsureExisting(spec: string, compat: Option<string>, b: Board, config: Config)
    requires BoardOk(b)
    ensures var v, i := Vars(Some(spec), compat), Parse(spec).1;
      var (st, w, _, _) := Ensure(v, b, config);
      && (st == Success <==>
            && |spec| <= 254 && Parse(spec).0 == Success && (compat.Some? ==> |compat.value| <= 254)
            && if Stays(i, compat) then Parse(compat.value).0 == Success
               else |i.boardFab| == 3 && |CompatName(i)| <= 235)
      && (st == Success && Stays(i, compat) ==> w == v)
      && (st == Success && !Stays(i, compat) ==>
            && |i.boardFab| >= 3 && w.spec == Some(spec)
            && w.compat == Some(PrintCompat(i.boardId, Resolve(i.boardId, i.boardSku, i.boardFab, config).1, i.boardSku,
                                            CompatName(i))))
  {
    var i := Parse(spec).1;
    if Parse(spec).0 == Success {
      ParsedIsSmall(spec);
      ParsedFields(spec);
      NewCompat(i, config);
    }
    hide Parse, GenerateSpec, GenerateCompat, PrintCompat, Resolve, CompatName, Contains;
  }

  /** What has been read has at most three characters of FAB, and a name. */
  lemma {:induction false} ParsedFields(spec: string)
    requires Parse(spec).0 == Success
    ensures |Parse(spec).1.boardFab| <= 3 && Parse(spec).1.boardName != ""
  {
  }

  lemma {:induction false} NewCompat(i: Info, config: Config)
    requires |i.boardFab| <= 3 && i.boardName != "" && i.boardId <= 9999 && i.boardSku <= 9999
    ensures var (st, text, made) := GenerateCompat(i, config, MAX_SPEC_STRING_LEN);
      && (st == Success <==> |i.boardFab| == 3 && |CompatName(i)| <= 235)
      && (st == Success ==>
            && Parse(text) == (Success, made)
            && text == PrintCompat(i.boardId, Resolve(i.boardId, i.boardSku, i.boardFab, config).1, i.boardSku,
                                   CompatName(i)))
  {
    if |i.boardFab| == 3 {
      CompatLength(i, config);
    }
    if GenerateCompat(i, config, MAX_SPEC_STRING_LEN).0 == Success {
      CompatFab(i, config);
      GeneratedCompat(i, config, MAX_SPEC_STRING_LEN);
      ReparseReproduces(i, config, MAX_SPEC_STRING_LEN);
    }
    hide Resolve, PrintCompat, CompatName, Parse;
  }

  lemma {:induction false} CompatLength(i: Info, config: Config)
    requires |i.boardFab| == 3 && i.boardId <= 9999 && i.boardSku <= 9999
    ensures var fab := Resolve(i.boardId, i.boardSku, i.boardFab, config).1;
      |fab| == 3 && |PrintCompat(i.boardId, fab, i.boardSku, CompatName(i))| == 19 + |CompatName(i)|
  {
    Pad4Gets(i.boardId);
    Pad4Gets(i.boardSku);
    ResolvedFits(i.boardId, i.boardSku, i.boardFab, config);
    hide Resolve, Pad4, Contains, CompatName, Digits, Value;
  }

  lemma {:induction false} CompatFab(i: Info, config: Config)
    requires GenerateCompat(i, config, MAX_SPEC_STRING_LEN).0 == Success
    ensures |i.boardFab| >= 3
    ensures GenerateCompat(i, config, MAX_SPEC_STRING_LEN).2.boardFab ==
      Resolve(i.boardId, i.boardSku, i.boardFab, config).1
  {
    hide Resolve, PrintCompat, CompatName;
  }

  // ---------- the installer's code ----------

  lemma {:induction false} CStringIs(s: string, t: string)
    requires |t| < |s| && s[..|t|] == t && s[|t|] == '\0' && '\0' !in t
    ensures CString(s) == t
  {
    if t != "" {
      assert s[0] == t[0] && s[1..][..|t| - 1] == t[1..];
      CStringIs(s[1..], t[1..]);
    }
  }

  /** CopyMem of part of a string, and the NUL after it. */
  method CopyText(s: string, i: nat, j: nat, field: array<char>)
    requires i <= j <= |s| && j - i < field.Length && '\0' !in s
    modifies field
    ensures CString(field[..]) == s[i..j]
  {
    forall k | 0 <= k < j - i {
      field[k] := s[i + k];
    }
    field[j - i] := '\0';
    assert field[..][..j - i] == s[i..j];
    CStringIs(field[..], s[i..j]);
  }

  method CopyPlatformSpecField(spec: string, start: nat, field: array<char>) returns (status: Status)
    requires start <= |spec| && '\0' !in spec
    modifies field
    ensures status == Field(spec, start, field.Length).0
    ensures if status == Success then CString(field[..]) == Field(spec, start, field.Length).1
      else field[..] == old(field[..])
  {
    if field.Length == 0 {
      return InvalidParameter;
    }
    var end := Dash(spec, start);
    if end == |spec| {
      return InvalidParameter;
    }
    if end - start >= field.Length {
      return BufferTooSmall;
    }
    CopyText(spec, start, end, field);
    return Success;
  }

  class TegraPlatformSpecInfo {
    var boardId: nat
    var boardSku: nat
    const boardFab: array<char>
    const boardName: array<char>

    constructor ()
      ensures Valid() && fresh(boardFab) && fresh(boardName) && Contents() == EMPTY
    {
      boardId, boardSku := 0, 0;
      boardFab := new char[4](i => '\0');
      boardName := new char[MAX_SPEC_STRING_LEN](i => '\0');
    }

    ghost predicate Valid()
      reads this
    {
      boardFab.Length == 4 && boardName.Length == MAX_SPEC_STRING_LEN && boardFab != boardName
    }

    ghost function Contents(): Info
      reads this, boardFab, boardName
    {
      Info(boardId, CString(boardFab[..]), boardSku, CString(boardName[..]))
    }

    method ZeroMem()
      requires Valid()
      modifies this, boardFab, boardName
      ensures Contents() == EMPTY
    {
      boardId, boardSku := 0, 0;
      forall i | 0 <= i < boardFab.Length {
        boardFab[i] := '\0';
      }
      forall i | 0 <= i < boardName.Length {
        boardName[i] := '\0';
      }
      CStringIs(boardFab[..], "");
      CStringIs(boardName[..], "");
    }

    method ParseTegraPlatformSpec(spec: string) returns (status: Status)
      requires Valid() && '\0' !in spec
      modifies this, boardFab, boardName
      ensures (status, Contents()) == Parse(spec)
    {
      ZeroMem();
      hide Field, Dash, CString, Number, ParseFab;
      var boardIdStr := new char[5](i => '\0');
      status := CopyPlatformSpecField(spec, 0, boardIdStr);
      if status != Success {
        return;
      }
      var id := ToText(boardIdStr);
      var value;
      status, value := ParseAsciiUint32Field(id);
      if status != Success {
        return;
      }
      boardId := value;
      FieldSome(spec, 0, 5);
      status := ParseFromFab(spec, Dash(spec, 0) + 1);
    }

    /** The FAB, which is at start, and what follows. */
    method ParseFromFab(spec: string, start: nat) returns (status: Status)
      requires Valid() && start <= |spec| && '\0' !in spec && boardSku == 0
      requires CString(boardFab[..]) == CString(boardName[..]) == ""
      modifies this`boardSku, boardFab, boardName
      ensures (status, Contents()) == ParseFab(spec, start, old(Contents()))
    {
      hide Field, Dash, CString, Number, ParseRest;
      status := CopyPlatformSpecField(spec, start, boardFab);
      if status != Success {
        return;
      }
      FieldSome(spec, start, 4);
      status := ParseFromSku(spec, Dash(spec, start) + 1);
    }

    /** The SKU, which is at start, and the name. */
    method ParseFromSku(spec: string, start: nat) returns (status: Status)
      requires Valid() && start <= |spec| && '\0' !in spec && boardSku == 0 && CString(boardName[..]) == ""
      modifies this`boardSku, boardName
      ensures (status, Contents()) == ParseRest(spec, start, old(Contents()))
    {
      hide Field, Dash, CString, Number, ParseName;
      var boardSkuStr := new char[5](i => '\0');
      status := CopyPlatformSpecField(spec, start, boardSkuStr);
      if status != Success {
        return;
      }
      var sku := ToText(boardSkuStr);
      var value;
      status, value := ParseAsciiUint32Field(sku);
      if status != Success {
        return;
      }
      boardSku := value;
      status := ParseBoardName(spec);
    }

    /** Past six dashes, and then up to a dash at the end. */
    method ParseBoardName(spec: string) returns (status: Status)
      requires Valid() && '\0' !in spec
      modifies boardName
      ensures status == ParseName(spec).0
      ensures if status == Success then CString(boardName[..]) == ParseName(spec).1
        else boardName[..] == old(boardName[..])
    {
      var at := PastSixDashes(spec);
      if at.None? {
        return InvalidParameter;
      }
      var start := at.value;
      hide PastDashes, CString, NameOf;
      NameOfRest(spec, start);
      var len := |spec| - start;
      if len == 0 {
        return InvalidParameter;
      }
      if spec[start + len - 1] == '-' {
        len := len - 1;
      }
      if len == 0 {
        return InvalidParameter;
      }
      if len >= boardName.Length {
        return BufferTooSmall;
      }
      CopyText(spec, start, start + len, boardName);
      return Success;
    }
  }

  lemma {:induction false} NameOfRest(s: string, i: nat)
    requires i <= |s|
    ensures NameOf(s[i..]) == if i < |s| && s[|s| - 1] == '-' then s[i..|s| - 1] else s[i..|s|]
  {
    assert s[i..] == s[i..|s|];
    if i < |s| {
      assert s[i..][..|s| - 1 - i] == s[i..|s| - 1];
    }
  }

  method PastSixDashes(spec: string) returns (at: Option<nat>)
    ensures at == PastDashes(spec, 0, 6)
  {
    var start: nat, index: nat := 0, 0;
    while index < 6
      invariant index <= 6 && start <= |spec|
      invariant PastDashes(spec, 0, 6) == PastDashes(spec, start, 6 - index)
    {
      var next := Dash(spec, start);
      if next == |spec| {
        return None;
      }
      start := next + 1;
      index := index + 1;
    }
    return Some(start);
  }

  /** A buffer's C string, as AsciiStrLen sees it. */
  method ToText(field: array<char>) returns (text: string)
    ensures text == CString(field[..])
  {
    var len := 0;
    while len < field.Length && field[len] != '\0'
      invariant len <= field.Length && CString(field[..]) == field[..len] + CString(field[len..])
    {
      assert field[len..][1..] == field[len + 1..];
      len := len + 1;
    }
    text := field[..len];
  }

  // ---------- the installer's globals ----------

  predicate Plain(s: string) {
    '\0' !in s
  }

  lemma {:induction false} CStringIsPlain(s: string)
    ensures Plain(CString(s))
  {
    if s != "" && s[0] != '\0' {
      CStringIsPlain(s[1..]);
    }
  }

  lemma {:induction false} DigitsArePlain(s: string)
    requires Digits(s)
    ensures Plain(s)
  {
  }

  lemma {:induction false} PrintCompatIsPlain(id: nat, fab: string, sku: nat, name: string)
    requires Plain(fab) && Plain(name)
    ensures Plain(PrintCompat(id, fab, sku, name))
  {
    Pad4Gets(id);
    Pad4Gets(sku);
    hide Pad4;
    DigitsArePlain(Pad4(id));
    DigitsArePlain(Pad4(sku));
  }

  lemma {:induction false} PrintSpecIsPlain(id: string, fab: string, sku: string, revision: char, name: string)
    requires Plain(id) && Plain(fab) && Plain(sku) && Plain(name) && revision != '\0'
    ensures Plain(PrintSpec(id, fab, sku, revision, name))
  {
  }

  lemma {:induction false} AgxOrinIsPlain(sku: nat, fab: string, config: Config)
    requires |fab| >= 3
    ensures var (name, compat) := ResolveAgxOrin(sku, fab, config); Plain(name) && Plain(compat)
  {
    hide NumericFab;
  }

  lemma {:induction false} OrinNanoIsPlain(sku: nat, config: Config)
    ensures var (name, compat) := ResolveOrinNano(sku, config); Plain(name) && Plain(compat)
  {
  }

  lemma {:induction false} AgxThorIsPlain(sku: nat, fab: string)
    requires |fab| >= 3
    ensures var (name, compat) := ResolveAgxThor(sku, fab); Plain(name) && Plain(compat)
  {
    hide NumericFab;
  }

  lemma {:induction false} UnknownIsPlain()
    ensures Plain("jetson-unknown") && Plain("000")
  {
  }

  lemma {:induction false} ResolvedIsPlain(id: nat, sku: nat, fab: string, config: Config)
    requires |fab| >= 3
    ensures var (name, compat) := Resolve(id, sku, fab, config); Plain(name) && Plain(compat)
  {
    hide ResolveAgxOrin, ResolveOrinNano, ResolveAgxThor, Plain;
    AgxOrinIsPlain(sku, fab, config);
    OrinNanoIsPlain(sku, config);
    AgxThorIsPlain(sku, fab);
    UnknownIsPlain();
  }

  lemma {:induction false} GeneratedSpecIsPlain(b: Board, config: Config, size: nat)
    requires BoardOk(b)
    ensures Plain(GenerateSpec(b, config, size).1)
  {
    ResolvedIsPlain(BoardNumber(b.id), BoardNumber(b.sku), b.fab, config);
    CStringIsPlain(b.id);
    CStringIsPlain(b.fab);
    CStringIsPlain(b.sku);
    var name := Resolve(BoardNumber(b.id), BoardNumber(b.sku), b.fab, config).0;
    PrintSpecIsPlain(CString(b.id), CString(b.fab), CString(b.sku), Revision(b.revision), name);
    hide Resolve, CString, PrintSpec, BoardNumber;
  }

  lemma {:induction false} NothingIsPlain()
    ensures Plain("") && Plain(BOARD_NAME_ORIN_NANO_DEVKIT_SUPER)
  {
  }

  lemma {:induction false} GenerateCompatIs(i: Info, config: Config, size: nat)
    ensures var name := if IsOrinNanoDevkitSku5NonSuper(i, i.boardName) then BOARD_NAME_ORIN_NANO_DEVKIT_SUPER
      else i.boardName;
      GenerateCompat(i, config, size) ==
        if size < MAX_SPEC_STRING_LEN then (BufferTooSmall, "", EMPTY)
        else if |i.boardFab| < 3 || i.boardName == "" then (InvalidParameter, "", EMPTY)
        else
          var fab := Resolve(i.boardId, i.boardSku, i.boardFab, config).1;
          var text := PrintCompat(i.boardId, fab, i.boardSku, name);
          if |text| >= size - 1 then (DeviceError, "", EMPTY)
          else if |fab| >= 4 || |name| >= MAX_SPEC_STRING_LEN then (BufferTooSmall, "", EMPTY)
          else (Success, text, Info(i.boardId, fab, i.boardSku, name))
  {
    hide Resolve, PrintCompat, IsOrinNanoDevkitSku5NonSuper;
  }

  /** The two cached records and the two variables. */
  class Installer {
    const mTegraPlatformSpec: TegraPlatformSpecInfo
    const mTegraPlatformCompatSpec: TegraPlatformSpecInfo
    var spec: Option<string>
    var compat: Option<string>

    constructor (spec: Option<string>, compat: Option<string>)
      requires (spec.Some? ==> Plain(spec.value)) && (compat.Some? ==> Plain(compat.value))
      ensures Valid() && Variables() == Vars(spec, compat)
    {
      this.spec, this.compat := spec, compat;
      mTegraPlatformSpec := new TegraPlatformSpecInfo();
      mTegraPlatformCompatSpec := new TegraPlatformSpecInfo();
    }

    ghost predicate Valid()
      reads this, mTegraPlatformSpec, mTegraPlatformCompatSpec
    {
      var s, c := mTegraPlatformSpec, mTegraPlatformCompatSpec;
      && s != c && s.Valid() && c.Valid()
      && s.boardFab != c.boardFab && s.boardFab != c.boardName && s.boardName != c.boardFab
        && s.boardName != c.boardName
      && (spec.Some? ==> Plain(spec.value)) && (compat.Some? ==> Plain(compat.value))
    }

    ghost function Variables(): Vars
      reads this
    {
      Vars(spec, compat)
    }

    method GeneratePlatformCompatSpecString(config: Config, size: nat) returns (status: Status, text: string)
      requires Valid()
      modifies mTegraPlatformCompatSpec, mTegraPlatformCompatSpec.boardFab, mTegraPlatformCompatSpec.boardName
      ensures Plain(text)
      ensures var (st, t, made) := GenerateCompat(mTegraPlatformSpec.Contents(), config, size);
        status == st && text == t && (status == Success ==> mTegraPlatformCompatSpec.Contents() == made)
    {
      var fab := ToText(mTegraPlatformSpec.boardFab);
      var name := ToText(mTegraPlatformSpec.boardName);
      var info := Info(mTegraPlatformSpec.boardId, fab, mTegraPlatformSpec.boardSku, name);
      assert info == mTegraPlatformSpec.Contents();
      CStringIsPlain(mTegraPlatformSpec.boardName[..]);
      GenerateCompatIs(info, config, size);
      NothingIsPlain();
      hide *;
      status, text := BufferTooSmall, "";
      if size < MAX_SPEC_STRING_LEN {
        return;
      }
      if |fab| < 3 || name == "" {
        status := InvalidParameter;
        return;
      }
      if IsOrinNanoDevkitSku5NonSuper(info, name) {
        name := BOARD_NAME_ORIN_NANO_DEVKIT_SUPER;
      }
      var compatFab := Resolve(info.boardId, info.boardSku, fab, config).1;
      var printed := PrintCompat(info.boardId, compatFab, info.boardSku, name);
      if |printed| >= size - 1 {
        status := DeviceError;
        return;
      }
      if |compatFab| >= 4 || |name| >= MAX_SPEC_STRING_LEN {
        return;
      }
      ResolvedIsPlain(info.boardId, info.boardSku, fab, config);
      PrintCompatIsPlain(info.boardId, compatFab, info.boardSku, name);
      SetCompat(info.boardId, compatFab, info.boardSku, name);
      status, text := Success, printed;
    }

    method SetCompat(id: nat, fab: string, sku: nat, name: string)
      requires Valid() && Plain(fab) && Plain(name) && |fab| < 4 && |name| < MAX_SPEC_STRING_LEN
      modifies mTegraPlatformCompatSpec, mTegraPlatformCompatSpec.boardFab, mTegraPlatformCompatSpec.boardName
      ensures mTegraPlatformCompatSpec.Contents() == Info(id, fab, sku, name)
    {
      var c := mTegraPlatformCompatSpec;
      c.ZeroMem();
      c.boardId, c.boardSku := id, sku;
      CopyText(fab, 0, |fab|, c.boardFab);
      CopyText(name, 0, |name|, c.boardName);
    }

    ghost function Records(): set<object>
    {
      {mTegraPlatformSpec, mTegraPlatformSpec.boardFab, mTegraPlatformSpec.boardName,
       mTegraPlatformCompatSpec, mTegraPlatformCompatSpec.boardFab, mTegraPlatformCompatSpec.boardName}
    }

    method EnsurePlatformSpecVariables(b: Board, config: Config) returns (status: Status)
      requires Valid() && BoardOk(b)
      modifies this, Records()
      ensures Valid()
      ensures var (st, v, i, c) := Ensure(old(Variables()), b, config);
        && status == st && Variables() == v
        && (status == Success ==> mTegraPlatformSpec.Contents() == i && mTegraPlatformCompatSpec.Contents() == c)
    {
      hide GenerateSpec, TooLong, EnsureCompat, CString;
      if TooLong(spec) {
        return BufferTooSmall;
      }
      var isNew := spec.None?;
      if isNew {
        GeneratedSpecIsPlain(b, config, MAX_SPEC_STRING_LEN);
        var made := GenerateSpec(b, config, MAX_SPEC_STRING_LEN);
        if made.0 != Success {
          return made.0;
        }
        spec := Some(made.1);
      }
      status := EnsureCompatSpec(isNew, config);
    }

    /** The second half, once there is a TegraPlatformSpec. */
    method EnsureCompatSpec(isNew: bool, config: Config) returns (status: Status)
      requires Valid() && spec.Some?
      modifies this`compat, Records()
      ensures Valid()
      ensures var (st, v, i, c) := EnsureCompat(old(Variables()), old(spec).value, isNew, config);
        && status == st && Variables() == v
        && (status == Success ==> mTegraPlatformSpec.Contents() == i && mTegraPlatformCompatSpec.Contents() == c)
    {
      hide Parse, GenerateCompat, CString, IsOrinNanoDevkitSku5NonSuper, TooLong;
      status := mTegraPlatformSpec.ParseTegraPlatformSpec(spec.value);
      if status != Success {
        return;
      }
      if TooLong(compat) {
        return BufferTooSmall;
      }
      var id, sku := mTegraPlatformSpec.boardId, mTegraPlatformSpec.boardSku;
      ghost var i := mTegraPlatformSpec.Contents();
      NonSuperIs(i, id, sku);
      if isNew || compat.None? || IsOrinNanoDevkitSku5NonSuper(Info(id, "", sku, ""), compat.value) {
        var text;
        status, text := GeneratePlatformCompatSpecString(config, MAX_SPEC_STRING_LEN);
        if status != Success {
          return;
        }
        compat := Some(text);
      }
      status := mTegraPlatformCompatSpec.ParseTegraPlatformSpec(compat.value);
    }

    lemma {:induction false} NonSuperIs(i: Info, id: nat, sku: nat)
      requires i.boardId == id && i.boardSku == sku
      ensures forall s: string ::
        IsOrinNanoDevkitSku5NonSuper(i, s) == IsOrinNanoDevkitSku5NonSuper(Info(id, "", sku, ""), s)
    {
      hide Contains;
    }
  }
}
