/** Bot actor ids: written from a room and a number, and read back. */
module BotIds {
  import opened Tiles

  datatype Identity = Identity(room: Id, number: int)

  const PREFIX: Id := "bot"
  const MAX_INT := 0x7fff_ffff_ffff_ffff

  function Digit(d: nat): char
    requires d < 10
  {
    "0123456789"[d]
  }

  function Decimal(n: nat): (s: string)
    ensures s != ""
  {
    if n < 10 then [Digit(n)] else Decimal(n / 10) + [Digit(n % 10)]
  }

  function IntegerText(n: int): string {
    if n < 0 then "-" + Decimal(-n) else Decimal(n)
  }

  function Format(i: Identity): Id {
    PREFIX + ":" + i.room + ":" + IntegerText(i.number)
  }

  /** The text before and after the first colon. */
  function Cut(s: string): (r: Option<(string, string)>)
    ensures r.None? <==> ':' !in s
    ensures r.Some? ==> s == r.value.0 + ":" + r.value.1 && ':' !in r.value.0
  {
    if s == "" then None
    else if s[0] == ':' then Some(("", s[1..]))
    else
      assert s == [s[0]] + s[1..];
      match Cut(s[1..])
      case None => None
      case Some((a, b)) => Some(([s[0]] + a, b))
  }

  function DigitValue(c: char): Option<nat> {
    if '0' <= c <= '9' then Some((c as int) - ('0' as int)) else None
  }

  /** Digits only, at least one. */
  function Natural(s: string): Option<nat> {
    if s == "" then None
    else
      match DigitValue(s[|s| - 1])
      case None => None
      case Some(d) =>
        if |s| == 1 then Some(d)
        else match Natural(s[..|s| - 1])
          case None => None
          case Some(n) => Some(10 * n + d)
  }

  /** An optional sign and digits, within the range of a 64-bit integer. */
  function Atoi(s: string): Option<int> {
    var signed := s != "" && (s[0] == '-' || s[0] == '+');
    match Natural(if signed then s[1..] else s)
    case None => None
    case Some(n) =>
      var v: int := if signed && s[0] == '-' then -(n as int) else n as int;
      if -MAX_INT - 1 <= v <= MAX_INT then Some(v) else None
  }

  function Parse(actor: Id): Option<Identity> {
    match Cut(actor)
    case None => None
    case Some((kind, rest)) =>
      if kind != PREFIX then None
      else match Cut(rest)
        case None => None
        case Some((room, number)) =>
          if room == "" then None
          else match Atoi(number)
            case None => None
            case Some(n) => if n <= 0 then None else Some(Identity(room, n))
  }

  // ---------------------------------------------------------------- the round trip

  lemma {:induction false} CutFirst(a: string, b: string)
    requires ':' !in a
    ensures Cut(a + ":" + b) == Some((a, b))
  {
    var s := a + ":" + b;
    if a == "" {
      assert s[0] == ':' && s[1..] == b;
    } else {
      assert s[0] == a[0] && s[1..] == a[1..] + ":" + b;
      CutFirst(a[1..], b);
      assert a == [a[0]] + a[1..];
    }
  }

  lemma DigitReads(d: nat)
    requires d < 10
    ensures DigitValue(Digit(d)) == Some(d) && Digit(d) !in {'-', '+', ':'}
  {
    assert Digit(d) == ('0' as int + d) as char;
  }

  lemma {:induction false} DecimalReads(n: nat)
    ensures Natural(Decimal(n)) == Some(n)
    ensures Decimal(n)[0] !in {'-', '+'} && ':' !in Decimal(n)
  {
    DigitReads(n % 10);
    if n >= 10 {
      DecimalReads(n / 10);
      var s := Decimal(n);
      assert s[..|s| - 1] == Decimal(n / 10) && s[|s| - 1] == Digit(n % 10);
      assert s[0] == Decimal(n / 10)[0];
    }
  }

  /** The decimal digits of a number: the last one is its remainder by ten, the others are those of the quotient. */
  lemma DecimalDigits(n: nat, d: nat)
    requires d < 10
    ensures |Decimal(d)| == 1 && Decimal(d)[0] as int == '0' as int + d
    ensures n > 0 ==> Decimal(10 * n + d) == Decimal(n) + Decimal(d)
    ensures forall room, k: nat :: Format(Identity(room, k)) == "bot:" + room + ":" + Decimal(k)
  {
    DigitReads(d);
  }

  /** An identity is read back as it was written exactly when the room is named without a colon and the number is
      positive and fits the integer type. */
  lemma RoundTripIff(i: Identity)
    requires i.number <= MAX_INT
    ensures Parse(Format(i)) == Some(i) <==> i.room != "" && ':' !in i.room && i.number > 0
  {
    var number := IntegerText(i.number);
    var rest := i.room + ":" + number;
    assert Format(i) == PREFIX + ":" + rest;
    CutFirst(PREFIX, rest);
    if i.room != "" && ':' !in i.room && i.number > 0 {
      CutFirst(i.room, number);
      DecimalReads(i.number);
    }
    if Parse(Format(i)) == Some(i) {
      var p := Cut(rest).value;
      assert p.0 == i.room;
    }
  }
}
