/** Shared vocabulary of the model: the error outcomes of `read_spectra`,
    the values a FITS header keyword can hold, and the few Python string and
    sequence operations the reader relies on (`str(n)`, `str.zfill`,
    slicing with clamped bounds, indexing with negative indices). */
module Common {

  /** Every way the modelled part of `read_spectra` can stop with an
      exception instead of returning. */
  datatype Error =
    | MissingKey(key: string)                   // header keyword absent
    | WrongType(key: string)                    // header value of the wrong kind
    | MissingFile(name: string)                 // file that cannot be opened
    | MissingThingIds(name: string)             // no photoPosPlate THING_ID column
    | UnboundFlag                               // `files_exist` read before assignment
    | PlateMismatch(name: string)               // `assert plate == PLATEID`
    | EmptyCameras(name: string)                // `CAMERAS[0]` of an empty string
    | EmptyReduction(name: string)              // min/max/argmin of an empty array
    | RowOutOfRange(name: string, fiber: int)   // `la[i]`, `wd[i, ...]`
    | ThingIdOutOfRange(name: string, fiber: int)
    | UnknownTarget(id: int)                    // `dic_spectra[targetid]` KeyError
    | NoGoodSpectra(id: int)                    // line 423 (undefined `brickfiles`)
    | CountMismatch                             // `assert len(bricknames) == len(targets)`
    | BadShape(name: string)                    // HDUs of one file that do not share a shape
    | BadSeed                                   // `RandomState` seed element outside [0, 2**32)

  datatype Result<T> = Ok(value: T) | Err(error: Error) {
    predicate IsFailure() { Err? }
    function PropagateFailure<U>(): Result<U>
      requires Err?
    {
      Err(error)
    }
    function Extract(): T
      requires Ok?
    {
      value
    }
  }

  datatype Option<T> = None | Some(value: T)

  /** A 2-D array: every row has `cols` columns. */
  predicate Rectangular<T>(m: seq<seq<T>>, cols: nat)
  {
    forall r :: 0 <= r < |m| ==> |m[r]| == cols
  }

  /** A header card holds either an integer or a string. */
  datatype HeaderValue = HInt(i: int) | HStr(s: string)

  type Header = map<string, HeaderValue>

  /** `header[key]` where the caller needs an integer. */
  function IntCard(h: Header, key: string): (r: Result<int>)
    ensures r.Ok? <==> key in h && h[key].HInt?
    ensures r.Ok? ==> h[key] == HInt(r.value)
  {
    if key !in h then Err(MissingKey(key))
    else if h[key].HStr? then Err(WrongType(key))
    else Ok(h[key].i)
  }

  /** `header[key]` where the caller slices the value as a string. */
  function StrCard(h: Header, key: string): (r: Result<string>)
    ensures r.Ok? <==> key in h && h[key].HStr?
    ensures r.Ok? ==> h[key] == HStr(r.value)
  {
    if key !in h then Err(MissingKey(key))
    else if h[key].HInt? then Err(WrongType(key))
    else Ok(h[key].s)
  }

  predicate IsDigit(c: char) { '0' <= c <= '9' }

  predicate AllDigits(s: string) { forall k :: 0 <= k < |s| ==> IsDigit(s[k]) }

  function DigitChar(d: nat): (c: char)
    requires d < 10
    ensures IsDigit(c) && (c as int) - ('0' as int) == d
  {
    (d + '0' as int) as char
  }

  function DigitValue(c: char): nat
    requires IsDigit(c)
  {
    (c as int) - ('0' as int)
  }

  /** Python `str(n)` for a non-negative integer: no leading zeros. */
  function NatStr(n: nat): (s: string)
    ensures |s| >= 1 && AllDigits(s)
    ensures n >= 10 ==> s[0] != '0'
  {
    if n < 10 then [DigitChar(n)] else NatStr(n / 10) + [DigitChar(n % 10)]
  }

  /** Python `str(i)` for any integer. */
  function IntStr(i: int): string
  {
    if i < 0 then "-" + NatStr(-i) else NatStr(i)
  }

  /** Reads a decimal digit string back as a number (the inverse of `NatStr`,
      also accepting leading zeros). */
  function ParseNat(s: string): nat
    requires AllDigits(s)
  {
    if s == [] then 0 else 10 * ParseNat(s[..|s| - 1]) + DigitValue(s[|s| - 1])
  }

  function Zeros(n: nat): (z: string)
    ensures |z| == n && AllDigits(z)
    ensures forall k :: 0 <= k < n ==> z[k] == '0'
  {
    if n == 0 then "" else "0" + Zeros(n - 1)
  }

  /** Python `s.zfill(width)`: pads with '0' on the left up to `width`
      characters, keeping a leading sign in front. */
  function ZFill(s: string, width: int): string
  {
    if width <= |s| then s
    else if |s| > 0 && (s[0] == '+' || s[0] == '-') then [s[0]] + Zeros(width - |s|) + s[1..]
    else Zeros(width - |s|) + s
  }

  /** Python `s[lo:hi]` for non-negative bounds: both are clamped to the
      length, and a window with `lo >= hi` is empty. */
  function Slice<T>(s: seq<T>, lo: nat, hi: nat): (r: seq<T>)
    ensures |r| == if lo < hi && lo < |s| then (if hi < |s| then hi else |s|) - lo else 0
    ensures forall k :: 0 <= k < |r| ==> r[k] == s[lo + k]
  {
    var b := if hi < |s| then hi else |s|;
    if lo < b then s[lo..b] else []
  }

  /** Python `xs[i]` on a sequence of length `n`: negative indices count
      from the end; anything else outside the sequence is an IndexError. */
  function PyIndex(n: nat, i: int): (r: Option<nat>)
    ensures r.Some? <==> -(n as int) <= i < n
    ensures r.Some? ==> r.value < n && (r.value == i || r.value == i + n)
  {
    if 0 <= i < n then Some(i) else if -(n as int) <= i < 0 then Some(i + n) else None
  }

  lemma {:induction false} ParseNatAppend(s: string, c: char)
    requires AllDigits(s) && IsDigit(c)
    ensures AllDigits(s + [c])
    ensures ParseNat(s + [c]) == 10 * ParseNat(s) + DigitValue(c)
  {
    assert (s + [c])[..|s + [c]| - 1] == s;
  }

  /** Reading back what `str(n)` printed gives `n`. */
  lemma {:induction false} ParseNatStr(n: nat)
    ensures ParseNat(NatStr(n)) == n
  {
    if n >= 10 {
      ParseNatStr(n / 10);
      ParseNatAppend(NatStr(n / 10), DigitChar(n % 10));
    }
  }

  /** Leading zeros do not change the value read. */
  lemma {:induction false} ParseNatZeros(k: nat, s: string)
    requires AllDigits(s)
    ensures AllDigits(Zeros(k) + s)
    ensures ParseNat(Zeros(k) + s) == ParseNat(s)
  {
    if s == [] {
      assert Zeros(k) + s == Zeros(k);
      ZerosValue(k);
    } else {
      var init := s[..|s| - 1];
      var last := s[|s| - 1];
      assert s == init + [last];
      ParseNatZeros(k, init);
      assert Zeros(k) + s == (Zeros(k) + init) + [last];
      ParseNatAppend(Zeros(k) + init, last);
      ParseNatAppend(init, last);
    }
  }

  lemma {:induction false} ZerosValue(k: nat)
    ensures ParseNat(Zeros(k)) == 0
  {
    if k > 0 {
      assert Zeros(k) == Zeros(k - 1) + "0";
      ParseNatAppend(Zeros(k - 1), '0');
      ZerosValue(k - 1);
    }
  }

  /** `str(n).zfill(w)` is a digit string of exactly `max(w, len(str(n)))`
      characters that still reads as `n`; in particular distinct numbers
      give distinct padded strings. */
  lemma ZFillNat(n: nat, width: int)
    ensures var z := ZFill(NatStr(n), width);
      && AllDigits(z)
      && |z| == (if width <= |NatStr(n)| then |NatStr(n)| else width)
      && ParseNat(z) == n
  {
    var s := NatStr(n);
    ParseNatStr(n);
    if width > |s| {
      assert s[0] != '+' && s[0] != '-' by { assert IsDigit(s[0]); }
      ParseNatZeros(width - |s|, s);
    }
  }

  lemma ZFillNatInjective(a: nat, b: nat, width: int)
    requires ZFill(NatStr(a), width) == ZFill(NatStr(b), width)
    ensures a == b
  {
    ZFillNat(a, width);
    ZFillNat(b, width);
  }

  function Pow10(k: nat): (p: nat)
    ensures p >= 1
  {
    if k == 0 then 1 else 10 * Pow10(k - 1)
  }

  /** A number below 10^k prints in at most k digits. */
  lemma {:induction false} NatStrLength(n: nat, k: nat)
    requires k >= 1 && n < Pow10(k)
    ensures |NatStr(n)| <= k
  {
    if n >= 10 {
      assert Pow10(1) == 10;
      assert k >= 2;
      assert n / 10 < Pow10(k - 1);
      NatStrLength(n / 10, k - 1);
    }
  }
}
