/**
 * What a handler answers once it has looked a note up: the record, or the
 * 404 error raised as `HTTPException(status_code=404, detail=...)`.
 */
module Http {

  import opened Wrappers

  const HTTP_200_OK: int := 200
  const HTTP_201_CREATED: int := 201
  const HTTP_404_NOT_FOUND: int := 404

  /** Either the value a handler returns, or the id it could not find. */
  datatype Outcome<+T> = Ok(value: T) | NotFound(id: int) {

    /** The HTTP status of the response: 200, or the 404 of the raised exception. */
    function Status(): int
    {
      if Ok? then HTTP_200_OK else HTTP_404_NOT_FOUND
    }

    /** The `detail` text of the response: present exactly on a 404. */
    function Detail(): Option<string>
    {
      if Ok? then None else Some(NotFoundDetail(id))
    }
  }

  const DetailPrefix: string := "Note with id "
  const DetailSuffix: string := " not found"

  /**
   * The detail message `f"Note with id {note_id} not found"`: the fixed
   * prefix, the id in decimal, the fixed suffix.
   */
  function NotFoundDetail(id: int): (r: string)
    ensures |r| == |DetailPrefix| + |IntText(id)| + |DetailSuffix|
    ensures r[..|DetailPrefix|] == DetailPrefix
    ensures r[|r| - |DetailSuffix|..] == DetailSuffix
    ensures r[|DetailPrefix|..|r| - |DetailSuffix|] == IntText(id)
  {
    DetailPrefix + IntText(id) + DetailSuffix
  }

  /** Python's decimal rendering of an int: a minus sign for negatives, no leading zeros. */
  function IntText(i: int): string
  {
    if i < 0 then "-" + Digits(-i) else Digits(i)
  }

  function DigitChar(d: nat): (c: char)
    requires d < 10
    ensures '0' <= c <= '9'
  {
    ('0' as int + d) as char
  }

  /** The decimal digits of `n`, most significant first. */
  function Digits(n: nat): (s: string)
    ensures |s| >= 1
    ensures forall i :: 0 <= i < |s| ==> '0' <= s[i] <= '9'
    ensures s[0] == '0' ==> n == 0
  {
    if n < 10 then [DigitChar(n)] else Digits(n / 10) + [DigitChar(n % 10)]
  }

  /** The number a string of decimal digits denotes: the reading of `Digits`. */
  function DigitsValue(s: string): nat
    requires forall i :: 0 <= i < |s| ==> '0' <= s[i] <= '9'
  {
    if s == [] then 0
    else 10 * DigitsValue(s[..|s| - 1]) + (s[|s| - 1] as int - '0' as int)
  }

  /** Reading the digits back gives the number: `Digits` loses nothing. */
  lemma {:induction false} DigitsRoundTrip(n: nat)
    ensures DigitsValue(Digits(n)) == n
  {
    var s := Digits(n);
    if n >= 10 {
      DigitsRoundTrip(n / 10);
      assert s == Digits(n / 10) + [DigitChar(n % 10)];
      assert s[..|s| - 1] == Digits(n / 10);
      assert s[|s| - 1] as int - '0' as int == n % 10;
    } else {
      assert s[..0] == [];
    }
  }

  /** A rendering starts with '-' exactly when the id is negative, and the digits follow. */
  lemma IntTextSign(i: int)
    ensures IntText(i)[0] == '-' <==> i < 0
    ensures i < 0 ==> IntText(i)[1..] == Digits(-i)
    ensures i >= 0 ==> IntText(i) == Digits(i)
  {
    if i >= 0 {
      var d := Digits(i);
      assert '0' <= d[0] <= '9';
    }
  }

  lemma DigitsInjective(m: nat, n: nat)
    requires Digits(m) == Digits(n)
    ensures m == n
  {
    DigitsRoundTrip(m);
    DigitsRoundTrip(n);
  }

  lemma NegativeTextInjective(a: int, b: int)
    requires IntText(a) == IntText(b)
    requires a < 0
    ensures a == b
  {
    IntTextSign(a);
    IntTextSign(b);
    var s := IntText(a);
    assert Digits(-a) == s[1..];
    assert Digits(-b) == s[1..];
    DigitsInjective(-a, -b);
  }

  /** Distinct ids render differently. */
  lemma IntTextInjective(a: int, b: int)
    requires IntText(a) == IntText(b)
    ensures a == b
  {
    if a < 0 {
      NegativeTextInjective(a, b);
    } else if b < 0 {
      NegativeTextInjective(b, a);
    } else {
      IntTextSign(a);
      IntTextSign(b);
      DigitsInjective(a, b);
    }
  }

  /** The 404 detail names the id unambiguously: two ids share a message only if they are equal. */
  lemma NotFoundDetailInjective(a: int, b: int)
    ensures NotFoundDetail(a) == NotFoundDetail(b) <==> a == b
  {
    if NotFoundDetail(a) == NotFoundDetail(b) {
      assert IntText(a) == IntText(b);
      IntTextInjective(a, b);
    }
  }
}
