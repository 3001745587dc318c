/** `String.format` as far as the wall's pages use it: the template is first
    parsed into specifiers as a whole (a malformed conversion fails before
    anything is substituted), then the specifiers are rendered left to
    right, `%s` taking the next argument, `%<d>$s` argument d (counted from
    1, without moving on), `%%` a percent sign and `%n` the line separator. */
module Formats {
  import opened Wrappers

  /** The line separator `%n` stands for. */
  const LineSeparator := "\n"

  datatype Specifier =
    | Literal(c: char)
    | Ordinary
    | Explicit(index: nat)
    | Percent
    | LineBreak

  function Cons(x: Specifier, r: Result<seq<Specifier>>): Result<seq<Specifier>>
  {
    match r
    case Ok(xs) => Ok([x] + xs)
    case Err(e) => Err(e)
  }

  /** `Formatter.parse`: any `%` that does not start one of the conversions
      above is an `UnknownFormatConversionException`. */
  function Parse(t: string): (r: Result<seq<Specifier>>)
    ensures r.Err? ==> r.error == UnknownFormatConversion
    decreases |t|
  {
    if t == [] then Ok([])
    else if t[0] != '%' then Cons(Literal(t[0]), Parse(t[1..]))
    else if |t| >= 2 && t[1] == 's' then Cons(Ordinary, Parse(t[2..]))
    else if |t| >= 2 && t[1] == '%' then Cons(Percent, Parse(t[2..]))
    else if |t| >= 2 && t[1] == 'n' then Cons(LineBreak, Parse(t[2..]))
    else if |t| >= 4 && '1' <= t[1] <= '9' && t[2] == '$' && t[3] == 's' then
      Cons(Explicit(t[1] as int - '0' as int), Parse(t[4..]))
    else Err(UnknownFormatConversion)
  }

  function Prepend(x: string, r: Result<string>): Result<string>
  {
    match r
    case Ok(s) => Ok(x + s)
    case Err(e) => Err(e)
  }

  /** Substitution, `next` being the index of the argument the next `%s`
      takes; an argument that is not there is a
      `MissingFormatArgumentException`. */
  function Render(specs: seq<Specifier>, args: seq<string>, next: nat): (r: Result<string>)
    ensures r.Err? ==> r.error == MissingFormatArgument
    decreases |specs|
  {
    if specs == [] then Ok("")
    else match specs[0]
      case Literal(c) => Prepend([c], Render(specs[1..], args, next))
      case Percent => Prepend("%", Render(specs[1..], args, next))
      case LineBreak => Prepend(LineSeparator, Render(specs[1..], args, next))
      case Ordinary =>
        if next < |args| then Prepend(args[next], Render(specs[1..], args, next + 1))
        else Err(MissingFormatArgument)
      case Explicit(i) =>
        if 1 <= i <= |args| then Prepend(args[i - 1], Render(specs[1..], args, next))
        else Err(MissingFormatArgument)
  }

  function FormatFrom(t: string, args: seq<string>, next: nat): Result<string>
  {
    var specs :- Parse(t);
    Render(specs, args, next)
  }

  function Format(t: string, args: seq<string>): Result<string>
  {
    FormatFrom(t, args, 0)
  }

  /** Text without a `%` is copied as it is. */
  lemma {:induction false} PlainPrefix(x: string, rest: string, args: seq<string>, n: nat)
    requires '%' !in x
    ensures FormatFrom(x + rest, args, n) == Prepend(x, FormatFrom(rest, args, n))
    decreases |x|
  {
    if x == [] {
      assert x + rest == rest;
      match FormatFrom(rest, args, n)
      case Ok(s) => assert x + s == s;
      case Err(_) =>
    } else {
      var t := x + rest;
      assert t[0] == x[0] && t[1..] == x[1..] + rest;
      assert x == [x[0]] + x[1..];
      PlainPrefix(x[1..], rest, args, n);
      match Parse(x[1..] + rest)
      case Err(_) =>
      case Ok(ps) =>
        assert Parse(t) == Ok([Literal(x[0])] + ps);
        assert ([Literal(x[0])] + ps)[1..] == ps;
        assert FormatFrom(t, args, n) == Prepend([x[0]], Render(ps, args, n));
        assert FormatFrom(x[1..] + rest, args, n) == Render(ps, args, n);
        match FormatFrom(rest, args, n)
        case Err(_) =>
        case Ok(s) => assert [x[0]] + (x[1..] + s) == x + s;
    }
  }

  /** A template without a `%` formats to itself, whatever the arguments. */
  lemma FormatVerbatim(t: string, args: seq<string>)
    requires '%' !in t
    ensures Format(t, args) == Ok(t)
  {
    PlainPrefix(t, "", args, 0);
    assert t + "" == t;
  }

  /** `%s` takes the next argument. */
  lemma OrdinaryArgument(rest: string, args: seq<string>, n: nat)
    requires n < |args|
    ensures FormatFrom("%s" + rest, args, n) == Prepend(args[n], FormatFrom(rest, args, n + 1))
  {
    var t := "%s" + rest;
    assert t[0] == '%' && t[1] == 's' && t[2..] == rest;
    match Parse(rest)
    case Err(_) =>
    case Ok(ps) => assert ([Ordinary] + ps)[1..] == ps;
  }

  /** `%s` with no argument left fails. */
  lemma MissingArgument(rest: string, args: seq<string>, n: nat)
    requires |args| <= n && Parse(rest).Ok?
    ensures FormatFrom("%s" + rest, args, n) == Err(MissingFormatArgument)
  {
    var t := "%s" + rest;
    assert t[0] == '%' && t[1] == 's' && t[2..] == rest;
  }

  /** `%<d>$s` takes argument d and leaves the next ordinary argument where
      it was. */
  lemma ExplicitArgument(d: char, rest: string, args: seq<string>, n: nat)
    requires '1' <= d <= '9' && d as int - '0' as int <= |args|
    ensures FormatFrom("%" + [d] + "$s" + rest, args, n)
         == Prepend(args[d as int - '1' as int], FormatFrom(rest, args, n))
  {
    var t := "%" + [d] + "$s" + rest;
    assert t[0] == '%' && t[1] == d && t[2] == '$' && t[3] == 's' && t[4..] == rest;
    match Parse(rest)
    case Err(_) =>
    case Ok(ps) => assert ([Explicit(d as int - '0' as int)] + ps)[1..] == ps;
  }

  /** `%%` is a single percent sign. */
  lemma PercentEscape(rest: string, args: seq<string>, n: nat)
    ensures FormatFrom("%%" + rest, args, n) == Prepend("%", FormatFrom(rest, args, n))
  {
    var t := "%%" + rest;
    assert t[0] == '%' && t[1] == '%' && t[2..] == rest;
    match Parse(rest)
    case Err(_) =>
    case Ok(ps) => assert ([Percent] + ps)[1..] == ps;
  }

  /** A `%` at the very end is a malformed conversion. */
  lemma TrailingPercent(x: string, args: seq<string>)
    requires '%' !in x
    ensures Format(x + "%", args) == Err(UnknownFormatConversion)
  {
    PlainPrefix(x, "%", args, 0);
  }

  // ---------------------------------------------------------------------
  // The shapes of the wall's templates

  /** Plain text, then `%s`. */
  lemma PlainThenOrdinary(a: string, rest: string, args: seq<string>, n: nat)
    requires '%' !in a && n < |args|
    ensures FormatFrom(a + "%s" + rest, args, n) == Prepend(a + args[n], FormatFrom(rest, args, n + 1))
  {
    assert a + "%s" + rest == a + ("%s" + rest);
    PlainPrefix(a, "%s" + rest, args, n);
    OrdinaryArgument(rest, args, n);
    match FormatFrom(rest, args, n + 1)
    case Err(_) =>
    case Ok(s) => assert a + (args[n] + s) == a + args[n] + s;
  }

  /** Plain text closing a template. */
  lemma PlainEnd(a: string, args: seq<string>, n: nat)
    requires '%' !in a
    ensures FormatFrom(a, args, n) == Ok(a)
  {
    PlainPrefix(a, "", args, n);
    assert a + "" == a;
  }

  lemma FormatOne(a: string, b: string, x: string)
    requires '%' !in a && '%' !in b
    ensures Format(a + "%s" + b, [x]) == Ok(a + x + b)
  {
    PlainThenOrdinary(a, b, [x], 0);
    PlainEnd(b, [x], 1);
  }

  lemma FormatTwo(a: string, b: string, c: string, x: string, y: string)
    requires '%' !in a && '%' !in b && '%' !in c
    ensures Format(a + "%s" + b + "%s" + c, [x, y]) == Ok(a + x + b + y + c)
  {
    var args := [x, y];
    assert a + "%s" + b + "%s" + c == a + "%s" + (b + "%s" + c);
    PlainThenOrdinary(a, b + "%s" + c, args, 0);
    PlainThenOrdinary(b, c, args, 1);
    PlainEnd(c, args, 2);
    assert a + x + (b + y + c) == a + x + b + y + c;
  }

  lemma FormatThree(a: string, b: string, c: string, d: string, x: string, y: string, z: string)
    requires '%' !in a && '%' !in b && '%' !in c && '%' !in d
    ensures Format(a + "%s" + b + "%s" + c + "%s" + d, [x, y, z]) == Ok(a + x + b + y + c + z + d)
  {
    var args := [x, y, z];
    assert a + "%s" + b + "%s" + c + "%s" + d == a + "%s" + (b + "%s" + (c + "%s" + d));
    PlainThenOrdinary(a, b + "%s" + (c + "%s" + d), args, 0);
    PlainThenOrdinary(b, c + "%s" + d, args, 1);
    PlainThenOrdinary(c, d, args, 2);
    PlainEnd(d, args, 3);
    assert a + x + (b + y + (c + z + d)) == a + x + b + y + c + z + d;
  }

  /** `%2$s` between plain text: the first argument is not used. */
  lemma FormatSecond(a: string, b: string, x: string, y: string)
    requires '%' !in a && '%' !in b
    ensures Format(a + "%2$s" + b, [x, y]) == Ok(a + y + b)
  {
    var args := [x, y];
    assert "%2$s" == "%" + ['2'] + "$s";
    assert a + "%2$s" + b == a + ("%" + ['2'] + "$s" + b);
    PlainPrefix(a, "%" + ['2'] + "$s" + b, args, 0);
    ExplicitArgument('2', b, args, 0);
    PlainEnd(b, args, 0);
    assert a + (y + b) == a + y + b;
  }
}
