/** The pagination middleware: `page`, `limit` and `skip` derived from the
    request's `page` and `limit` query parameters with `parseInt(…, 10) || default`. */
module Pagination {
  import opened Common
  import opened JsText

  const DefaultPage: int := 1
  const DefaultLimit: int := 10

  /** Number.MAX_SAFE_INTEGER, 2^53 - 1: up to here every integer that
      `parseInt` reads is exactly the JavaScript number it returns; above it
      the result is rounded to a double. */
  const MaxSafeInteger: int := 0x1F_FFFF_FFFF_FFFF

  /** The value written to `req.pagination`. */
  datatype Page = Page(page: int, limit: int, skip: int)

  /** The parts of a request the middleware reads and writes. */
  datatype Request = Request(query: map<string, string>, pagination: Option<Page>)

  function QueryValue(req: Request, key: string): (v: Option<string>)
    ensures v.Some? <==> key in req.query
    ensures v.Some? ==> v.value == req.query[key]
  {
    if key in req.query then Some(req.query[key]) else None
  }

  predicate AllDigits(s: string) {
    forall i | 0 <= i < |s| :: IsDigit(s[i])
  }

  function DigitValue(c: char): (v: nat)
    requires IsDigit(c)
    ensures v < 10
  {
    (c as int) - ('0' as int)
  }

  /** The value of a string of decimal digits, most significant first. */
  function DecimalValue(d: string): nat
    requires AllDigits(d)
    decreases |d|
  {
    if d == [] then 0 else DecimalValue(d[..|d| - 1]) * 10 + DigitValue(d[|d| - 1])
  }

  /** The longest prefix of `s` made of decimal digits. */
  function LeadingDigits(s: string): (d: string)
    ensures |d| <= |s| && d == s[..|d|] && AllDigits(d)
    ensures |d| == |s| || !IsDigit(s[|d|])
  {
    if |s| > 0 && IsDigit(s[0]) then [s[0]] + LeadingDigits(s[1..]) else []
  }

  /** `parseInt(value, 10)`, with `None` standing for NaN: leading white space is
      skipped, one optional sign is read, then the longest run of decimal
      digits; no digits gives NaN. A missing parameter is `undefined`, whose
      string form "undefined" has no digits. */
  function ParseInt(value: Option<string>): (r: Option<int>)
    ensures value.None? ==> r.None?
    ensures r.Some? && r.value < 0 ==>
      value.Some? && |TrimStart(value.value)| > 0 && TrimStart(value.value)[0] == '-'
  {
    if value.None? then None
    else
      var t := TrimStart(value.value);
      if |t| > 0 && t[0] == '-' then Negated(ParseUnsigned(t[1..]))
      else if |t| > 0 && t[0] == '+' then ParseUnsigned(t[1..])
      else ParseUnsigned(t)
  }

  /** The longest leading run of decimal digits of `u`, read as a number;
      no digits gives NaN. */
  function ParseUnsigned(u: string): Option<int> {
    var d := LeadingDigits(u);
    if |d| == 0 then None else Some(DecimalValue(d) as int)
  }

  function Negated(n: Option<int>): Option<int> {
    if n.None? then None else Some(-n.value)
  }

  /** The derivation of lines 11-13: page and limit from their parameters, a
      falsy parse falling back to the default, and the offset of the page. */
  function Paginate(pageParam: Option<string>, limitParam: Option<string>): (p: Page)
    ensures p.skip == (p.page - 1) * p.limit
    ensures p.page != 0 && p.limit != 0
  {
    var page := NumberOr(ParseInt(pageParam), DefaultPage);
    var limit := NumberOr(ParseInt(limitParam), DefaultLimit);
    Page(page, limit, (page - 1) * limit)
  }

  /** The middleware: writes exactly `req.pagination` and hands the request on
      to `next`, which it always calls. */
  function PaginationMiddleware(req: Request): (next: Request)
    ensures next.query == req.query
    ensures next.pagination.Some?
    ensures next.pagination.value == Paginate(QueryValue(req, "page"), QueryValue(req, "limit"))
  {
    req.(pagination := Some(Paginate(QueryValue(req, "page"), QueryValue(req, "limit"))))
  }

  /** The decimal notation of `n`, the inverse of DecimalValue. */
  function DecimalString(n: nat): (s: string)
    ensures s != [] && AllDigits(s) && DecimalValue(s) == n
  {
    if n < 10 then [(('0' as int) + n) as char]
    else
      var prefix := DecimalString(n / 10);
      var s := prefix + [(('0' as int) + n % 10) as char];
      assert s[..|s| - 1] == prefix;
      s
  }

  /** The digit run of a string that starts with digits and then has a
      non-digit (or ends) is exactly those digits. */
  lemma {:induction false} LeadingDigitsOfDigitsThen(d: string, rest: string)
    requires AllDigits(d)
    requires rest == [] || !IsDigit(rest[0])
    ensures LeadingDigits(d + rest) == d
    decreases |d|
  {
    if d != [] {
      assert (d + rest)[1..] == d[1..] + rest;
      LeadingDigitsOfDigitsThen(d[1..], rest);
    }
  }

  /** A leading run of digits is read as a decimal number and what follows
      it is ignored. */
  lemma ParseUnsignedOfDigits(d: string, rest: string)
    requires |d| > 0 && AllDigits(d)
    requires rest == [] || !IsDigit(rest[0])
    ensures ParseUnsigned(d + rest) == Some(DecimalValue(d) as int)
  {
    LeadingDigitsOfDigitsThen(d, rest);
  }

  /** `parseInt` reads a leading run of digits as a decimal number and
      ignores what follows it. */
  lemma ParseIntOfDigits(d: string, rest: string)
    requires |d| > 0 && AllDigits(d)
    requires rest == [] || !IsDigit(rest[0])
    ensures ParseInt(Some(d + rest)) == Some(DecimalValue(d) as int)
  {
    var s := d + rest;
    assert s[0] == d[0] && IsDigit(s[0]) && !IsWhiteSpace(s[0]);
    assert TrimStart(s) == s;
    ParseUnsignedOfDigits(d, rest);
  }

  /** A string starting with '-' is the negation of what follows the sign. */
  lemma ParseIntOfMinus(s: string, x: string)
    requires |s| > 0 && s[0] == '-' && s[1..] == x
    ensures ParseInt(Some(s)) == Negated(ParseUnsigned(x))
  {
    assert !IsWhiteSpace(s[0]);
    assert TrimStart(s) == s;
  }

  /** `parseInt` skips no white space before a sign, and reads on after it. */
  lemma SignIsNotSkipped(x: string)
    ensures TrimStart("-" + x) == "-" + x
    ensures ("-" + x)[1..] == x
  {
    assert ("-" + x)[0] == '-';
  }

  /** `parseInt` reads the leading decimal number and ignores what follows
      a non-digit: parseInt("3abc") is 3. */
  lemma ParseIntOfDecimal(n: nat, rest: string)
    requires rest == [] || !IsDigit(rest[0])
    requires n <= MaxSafeInteger
    ensures ParseInt(Some(DecimalString(n) + rest)) == Some(n)
  {
    ParseIntOfDigits(DecimalString(n), rest);
  }

  /** A leading minus sign negates the number read after it. */
  lemma ParseIntOfNegativeDecimal(n: nat, rest: string)
    requires rest == [] || !IsDigit(rest[0])
    requires n <= MaxSafeInteger
    ensures ParseInt(Some("-" + (DecimalString(n) + rest))) == Some(-(n as int))
  {
    var x := DecimalString(n) + rest;
    SignIsNotSkipped(x);
    ParseIntOfMinus("-" + x, x);
    ParseUnsignedOfDigits(DecimalString(n), rest);
  }

  /** A parameter with no leading decimal number (missing, empty, "abc")
      gives the default page and limit; so does one that reads as 0. */
  lemma FalsyParseGivesDefaults(pageParam: Option<string>, limitParam: Option<string>)
    ensures ParseInt(pageParam) in {None, Some(0)} ==> Paginate(pageParam, limitParam).page == DefaultPage
    ensures ParseInt(limitParam) in {None, Some(0)} ==> Paginate(pageParam, limitParam).limit == DefaultLimit
    ensures ParseInt(pageParam).Some? && ParseInt(pageParam).value != 0 ==>
      Paginate(pageParam, limitParam).page == ParseInt(pageParam).value
    ensures ParseInt(limitParam).Some? && ParseInt(limitParam).value != 0 ==>
      Paginate(pageParam, limitParam).limit == ParseInt(limitParam).value
  {
  }

  /** A missing parameter, or one that does not start with a number, falls back. */
  lemma MissingOrNonNumericFallsBack(rest: string)
    requires rest == [] || (!IsDigit(rest[0]) && !IsWhiteSpace(rest[0]) && rest[0] != '-' && rest[0] != '+')
    ensures Paginate(None, None) == Page(DefaultPage, DefaultLimit, 0)
    ensures Paginate(Some(rest), Some(rest)) == Page(DefaultPage, DefaultLimit, 0)
  {
    assert TrimStart(rest) == rest;
  }

  /** "0" is falsy once parsed, so it falls back like a missing value. */
  lemma ZeroFallsBack(rest: string)
    requires rest == [] || !IsDigit(rest[0])
    ensures Paginate(Some(DecimalString(0) + rest), Some(DecimalString(0) + rest)) == Page(DefaultPage, DefaultLimit, 0)
  {
    ParseIntOfDecimal(0, rest);
  }

  /** A number followed by anything else is read as that number: "3abc" is page 3. */
  lemma NumericPrefixIsUsed(page: nat, limit: nat, pageRest: string, limitRest: string)
    requires page != 0 && limit != 0
    requires pageRest == [] || !IsDigit(pageRest[0])
    requires limitRest == [] || !IsDigit(limitRest[0])
    requires page <= MaxSafeInteger && limit <= MaxSafeInteger && (page - 1) * limit <= MaxSafeInteger
    ensures Paginate(Some(DecimalString(page) + pageRest), Some(DecimalString(limit) + limitRest))
      == Page(page, limit, (page - 1) * limit)
  {
    PrefixesParsed(page, limit, pageRest, limitRest);
  }

  lemma PrefixesParsed(page: nat, limit: nat, pageRest: string, limitRest: string)
    requires page != 0 && limit != 0
    requires pageRest == [] || !IsDigit(pageRest[0])
    requires limitRest == [] || !IsDigit(limitRest[0])
    requires page <= MaxSafeInteger && limit <= MaxSafeInteger
    ensures var p := Paginate(Some(DecimalString(page) + pageRest), Some(DecimalString(limit) + limitRest));
      p.page == page && p.limit == limit
  {
    ParseIntOfDecimal(page, pageRest);
    ParseIntOfDecimal(limit, limitRest);
  }

  /** Negative numbers are not clamped: page "-2" stays -2 and the offset is
      negative for a positive limit. */
  lemma NegativePageIsKept(n: nat, limitParam: Option<string>)
    requires n != 0
    requires n <= MaxSafeInteger
    ensures var p := Paginate(Some("-" + DecimalString(n)), limitParam);
      p.page == -(n as int) && (p.limit > 0 ==> p.skip < 0)
  {
    var p := Paginate(Some("-" + DecimalString(n)), limitParam);
    NegativePageParsed(n, limitParam);
    if p.limit > 0 {
      NegativePageHasNegativeOffset(n, p);
    }
  }

  lemma NegativePageParsed(n: nat, limitParam: Option<string>)
    requires n != 0
    requires n <= MaxSafeInteger
    ensures Paginate(Some("-" + DecimalString(n)), limitParam).page == -(n as int)
  {
    var x := DecimalString(n);
    SignIsNotSkipped(x);
    ParseIntOfMinus("-" + x, x);
    ParseUnsignedOfDecimal(n);
  }

  /** The decimal notation of a number reads back as that number. */
  lemma ParseUnsignedOfDecimal(n: nat)
    requires n <= MaxSafeInteger
    ensures ParseUnsigned(DecimalString(n)) == Some(n)
  {
    LeadingDigitsOfDigitsThen(DecimalString(n), []);
    assert DecimalString(n) + [] == DecimalString(n);
  }

  lemma NegativePageHasNegativeOffset(n: nat, p: Page)
    requires p.page == -(n as int) && p.limit > 0 && p.skip == (p.page - 1) * p.limit
    ensures p.skip < 0
  {
    ProductSign(n + 1, p.limit);
    assert (p.page - 1) * p.limit == -((n + 1) * p.limit);
  }

  /** With a positive page and limit the offset is a non-negative whole
      number of pages of `limit` items, and the first page starts at offset 0. */
  lemma SkipIsWholePages(pageParam: Option<string>, limitParam: Option<string>)
    ensures var p := Paginate(pageParam, limitParam);
      p.page >= 1 && p.limit >= 1 ==> p.skip >= 0 && exists pages: nat :: p.skip == pages * p.limit
    ensures var p := Paginate(pageParam, limitParam);
      p.page == 1 ==> p.skip == 0
  {
    WholePages(Paginate(pageParam, limitParam));
  }

  lemma WholePages(p: Page)
    requires p.skip == (p.page - 1) * p.limit
    ensures p.page >= 1 && p.limit >= 1 ==> p.skip >= 0 && exists pages: nat :: p.skip == pages * p.limit
    ensures p.page == 1 ==> p.skip == 0
  {
    if p.page >= 1 && p.limit >= 1 {
      var pages: nat := p.page - 1;
      ProductSign(pages, p.limit);
      assert p.skip == pages * p.limit;
    }
  }

  lemma {:induction false} ProductSign(a: nat, b: int)
    requires b > 0
    ensures a * b >= 0
    ensures a > 0 ==> a * b > 0
  {
    if a > 0 {
      ProductSign(a - 1, b);
      assert a * b == (a - 1) * b + b;
    }
  }

  /** The examples of the middleware's behaviour: no parameters give page 1 of
      10 from offset 0; page "3" of "5" starts at offset 10; "3abc" is page 3. */
  lemma Examples()
    ensures Paginate(None, None) == Page(1, 10, 0)
    ensures Paginate(Some("3"), Some("5")) == Page(3, 5, 10)
    ensures Paginate(Some("3abc"), None) == Page(3, 10, 20)
  {
    MissingOrNonNumericFallsBack([]);
    ThirdPageOfFive();
    ThirdPageOfPrefix();
  }

  lemma ThirdPageOfFive()
    ensures Paginate(Some("3"), Some("5")) == Page(3, 5, 10)
  {
    SmallDecimals();
    PrefixesParsed(3, 5, [], []);
  }

  lemma ThirdPageOfPrefix()
    ensures Paginate(Some("3abc"), None) == Page(3, 10, 20)
  {
    SmallDecimals();
    ParseIntOfDecimal(3, "abc");
  }

  lemma SmallDecimals()
    ensures DecimalString(3) + [] == "3" && DecimalString(5) + [] == "5"
    ensures DecimalString(3) + "abc" == "3abc"
  {
  }
}
