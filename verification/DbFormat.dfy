/** The text format of the hash-chained database's index file: decimal fields,
    chain pointers, and variable-length index records. */
module DbFormat {

  const IDXLEN_SZ := 4
  const PTR_SZ := 6
  const PTR_MAX := 999999
  const SEP := ':'
  const SPACE := ' '
  const NEWLINE := '\n'
  const IDXLEN_MIN := 6
  const IDXLEN_MAX := 1024
  const DATLEN_MIN := 2
  const DATLEN_MAX := 1024

  datatype Option<+T> = None | Some(value: T)

  // ----- decimal numbers -----

  function Digit(d: nat): char
    requires d < 10
  {
    '0' + (d as char)
  }

  predicate IsDigit(c: char) {
    '0' <= c <= '9'
  }

  /** `%d` */
  function Decimal(n: nat): string {
    if n < 10 then [Digit(n)] else Decimal(n / 10) + [Digit(n % 10)]
  }

  function Spaces(n: nat): string {
    seq(n, _ => SPACE)
  }

  /** `%*d`: right-justified in `width` columns, never cut. */
  function Padded(width: nat, n: nat): string {
    var s := Decimal(n);
    if |s| >= width then s else Spaces(width - |s|) + s
  }

  /** The value of the leading digits of `s`, after `acc`. */
  function DigitsValue(s: string, acc: nat): nat {
    if s == [] || !IsDigit(s[0]) then acc
    else DigitsValue(s[1..], acc * 10 + (s[0] - '0') as nat)
  }

  predicate IsSpace(c: char) {
    c == ' ' || '\t' <= c <= '\r'
  }

  /** atol: leading white space, an optional sign, then digits. */
  function Atol(s: string): int {
    if s == [] then 0
    else if IsSpace(s[0]) then Atol(s[1..])
    else if s[0] == '-' then 0 - DigitsValue(s[1..], 0)
    else if s[0] == '+' then DigitsValue(s[1..], 0)
    else DigitsValue(s, 0)
  }

  lemma {:induction false} DecimalDigits(n: nat)
    ensures Decimal(n) != [] && forall i :: 0 <= i < |Decimal(n)| ==> IsDigit(Decimal(n)[i])
  {
    if n >= 10 {
      DecimalDigits(n / 10);
    }
  }

  lemma {:induction false} DigitsValueSnoc(s: string, d: nat, acc: nat)
    requires d < 10 && forall i :: 0 <= i < |s| ==> IsDigit(s[i])
    ensures DigitsValue(s + [Digit(d)], acc) == DigitsValue(s, acc) * 10 + d
  {
    if s == [] {
      assert s + [Digit(d)] == [Digit(d)];
    } else {
      assert (s + [Digit(d)])[1..] == s[1..] + [Digit(d)];
      DigitsValueSnoc(s[1..], d, acc * 10 + (s[0] - '0') as nat);
    }
  }

  lemma {:induction false} DecimalValue(n: nat)
    ensures DigitsValue(Decimal(n), 0) == n
  {
    if n >= 10 {
      DecimalValue(n / 10);
      DecimalDigits(n / 10);
      DigitsValueSnoc(Decimal(n / 10), n % 10, 0);
    } else {
      assert [Digit(n)][1..] == [];
    }
  }

  /** Reading back a printed number gives the number. */
  lemma DecimalRoundTrip(n: nat)
    ensures Atol(Decimal(n)) == n
  {
    DecimalDigits(n);
    DecimalValue(n);
    assert IsDigit(Decimal(n)[0]);
  }

  lemma {:induction false} SkipSpaces(k: nat, s: string)
    ensures Atol(Spaces(k) + s) == Atol(s)
  {
    if k == 0 {
      assert Spaces(0) + s == s;
    } else {
      assert (Spaces(k) + s)[1..] == Spaces(k - 1) + s;
      SkipSpaces(k - 1, s);
    }
  }

  lemma PaddedRoundTrip(width: nat, n: nat)
    ensures Atol(Padded(width, n)) == n
  {
    DecimalRoundTrip(n);
    if |Decimal(n)| < width {
      SkipSpaces(width - |Decimal(n)|, Decimal(n));
    }
  }

  function Pow10(k: nat): nat {
    if k == 0 then 1 else 10 * Pow10(k - 1)
  }

  lemma {:induction false} DecimalLength(n: nat, k: nat)
    requires k > 0 && n < Pow10(k)
    ensures |Decimal(n)| <= k
  {
    if n >= 10 {
      DecimalLength(n / 10, k - 1);
    }
  }

  lemma PtrFits(p: nat)
    requires p <= PTR_MAX
    ensures |Padded(PTR_SZ, p)| == PTR_SZ
  {
    assert Pow10(6) == 1000000 by {
      assert Pow10(3) == 1000;
    }
    DecimalLength(p, 6);
  }

  lemma LenFits(n: nat)
    requires n <= IDXLEN_MAX
    ensures |Padded(IDXLEN_SZ, n)| == IDXLEN_SZ
  {
    assert Pow10(4) == 10000;
    DecimalLength(n, 4);
  }

  // ----- index records -----

  /** An index record: chain pointer, key, and where its data lies. */
  datatype Rec = Rec(ptr: nat, key: string, datoff: nat, datlen: nat)

  /** `key:datoff:datlen\n` */
  function Body(r: Rec): string {
    r.key + [SEP] + Decimal(r.datoff) + [SEP] + Decimal(r.datlen) + [NEWLINE]
  }

  function Encode(r: Rec): string {
    Padded(PTR_SZ, r.ptr) + Padded(IDXLEN_SZ, |Body(r)|) + Body(r)
  }

  /** A record as it stands in the file. */
  lemma EncodeExample()
    ensures Encode(Rec(3, "k", 4, 2)) == "     3   6k:4:2\n"
  {
    hide Encode, Padded;
    var r := Rec(3, "k", 4, 2);
    assert Decimal(4) == "4" && Decimal(2) == "2";
    assert Body(r) == "k:4:2\n" && |Body(r)| == 6;
    hide Body, Decimal;
    PaddedDigit(6, 3);
    PaddedDigit(4, 6);
    assert Spaces(5) + [Digit(3)] == "     3" && Spaces(3) + [Digit(6)] == "   6";
    EncodeParts(r);
  }

  lemma PaddedDigit(width: nat, d: nat)
    requires width >= 1 && d < 10
    ensures Padded(width, d) == Spaces(width - 1) + [Digit(d)]
  {
  }

  lemma EncodeParts(r: Rec)
    ensures Encode(r) == Padded(6, r.ptr) + Padded(4, |Body(r)|) + Body(r)
  {
  }

  predicate WellFormed(r: Rec) {
    && r.ptr <= PTR_MAX && SEP !in r.key
    && IDXLEN_MIN <= |Body(r)| <= IDXLEN_MAX
    && 0 < r.datlen <= DATLEN_MAX
  }

  /** strchr: the position of the first separator. */
  function FindSep(s: string): (i: int)
    ensures -1 <= i < |s|
    ensures i >= 0 ==> s[i] == SEP && SEP !in s[..i]
    ensures i < 0 ==> SEP !in s
  {
    if s == [] then -1
    else if s[0] == SEP then 0
    else
      var j := FindSep(s[1..]);
      assert j >= 0 ==> s[..j + 1] == [s[0]] + s[1..][..j];
      if j < 0 then -1 else j + 1
  }

  /** Split a record body into its fields; `None` is one of the fatal sanity checks. */
  function ParseBody(ptr: nat, body: string): Option<Rec> {
    if body == [] || body[|body| - 1] != NEWLINE then None
    else
      var line := body[..|body| - 1];
      var i := FindSep(line);
      if i < 0 then None
      else
        var rest := line[i + 1..];
        var j := FindSep(rest);
        if j < 0 || FindSep(rest[j + 1..]) >= 0 then None
        else
          var datoff, datlen := Atol(rest[..j]), Atol(rest[j + 1..]);
          if datoff < 0 || datlen <= 0 || datlen > DATLEN_MAX then None
          else Some(Rec(ptr, line[..i], datoff, datlen))
  }

  /** Read a chain pointer field. */
  function ReadPtr(file: string, off: nat): Option<nat> {
    if off + PTR_SZ > |file| then None
    else
      var p := Atol(file[off..off + PTR_SZ]);
      if p < 0 then None else Some(p)
  }

  /** Read an index record; `None` is one of the fatal sanity checks. */
  function ReadIdx(file: string, off: nat): Option<Rec> {
    if off + PTR_SZ + IDXLEN_SZ > |file| then None
    else
      var ptr := Atol(file[off..off + PTR_SZ]);
      var body := off + PTR_SZ + IDXLEN_SZ;
      var len := Atol(file[off + PTR_SZ..body]);
      if ptr < 0 || len < IDXLEN_MIN || len > IDXLEN_MAX || body + len > |file| then None
      else ParseBody(ptr, file[body..body + len])
  }

  /** Overwrite or extend `file` at `off`. */
  function WriteAt(file: string, off: nat, bytes: string): string
    requires off <= |file|
  {
    file[..off] + bytes + (if off + |bytes| <= |file| then file[off + |bytes|..] else [])
  }

  lemma {:induction false} FindSepAt(s: string, i: nat)
    requires i < |s| && s[i] == SEP && SEP !in s[..i]
    ensures FindSep(s) == i
  {
    if i > 0 {
      assert s[..i] == [s[0]] + s[1..][..i - 1];
      FindSepAt(s[1..], i - 1);
    }
  }

  lemma DecimalHasNoSep(n: nat)
    ensures SEP !in Decimal(n)
  {
    DecimalDigits(n);
  }

  /** A record body splits back into exactly the fields it was made from. */
  lemma BodyRoundTrip(r: Rec)
    requires WellFormed(r)
    ensures ParseBody(r.ptr, Body(r)) == Some(r)
  {
    var off, len := Decimal(r.datoff), Decimal(r.datlen);
    var line := r.key + [SEP] + off + [SEP] + len;
    assert Body(r)[..|Body(r)| - 1] == line;
    assert line[..|r.key|] == r.key;
    FindSepAt(line, |r.key|);
    var rest := line[|r.key| + 1..];
    assert rest == off + [SEP] + len;
    DecimalHasNoSep(r.datoff);
    DecimalHasNoSep(r.datlen);
    assert rest[..|off|] == off;
    FindSepAt(rest, |off|);
    assert rest[|off| + 1..] == len;
    DecimalRoundTrip(r.datoff);
    DecimalRoundTrip(r.datlen);
  }

  /** A separator in the key makes the body one with too many separators. */
  lemma BodyRejected(r: Rec)
    requires SEP in r.key
    ensures ParseBody(r.ptr, Body(r)) == None
  {
    var off, len := Decimal(r.datoff), Decimal(r.datlen);
    var line := r.key + [SEP] + off + [SEP] + len;
    assert Body(r)[..|Body(r)| - 1] == line;
    var i := FindSep(line);
    var at :| 0 <= at < |r.key| && r.key[at] == SEP;
    assert line[at] == SEP;
    assert i <= at;
    var rest := line[i + 1..];
    var second, third := |r.key| - (i + 1), |r.key| + 1 + |off| - (i + 1);
    assert rest[second] == SEP && rest[third] == SEP;
    var j := FindSep(rest);
    assert j <= second;
    assert rest[j + 1..][third - (j + 1)] == SEP;
  }

  lemma EncodedSize(r: Rec)
    requires r.ptr <= PTR_MAX && |Body(r)| <= IDXLEN_MAX
    ensures |Encode(r)| == PTR_SZ + IDXLEN_SZ + |Body(r)|
  {
    PtrFits(r.ptr);
    LenFits(|Body(r)|);
  }

  lemma EncodeLength(r: Rec)
    requires WellFormed(r)
    ensures |Encode(r)| == PTR_SZ + IDXLEN_SZ + |Body(r)|
  {
    EncodedSize(r);
  }

  /** Wherever a record stands in a file, reading it gives back what was written. */
  lemma RecordRoundTrip(before: string, r: Rec, after: string)
    requires WellFormed(r)
    ensures ReadIdx(before + Encode(r) + after, |before|) == Some(r)
    ensures ReadPtr(before + Encode(r) + after, |before|) == Some(r.ptr)
  {
    var file, off, len := before + Encode(r) + after, |before|, |Body(r)|;
    EncodeLength(r);
    PtrFits(r.ptr);
    LenFits(len);
    assert file[off..off + PTR_SZ] == Padded(PTR_SZ, r.ptr);
    assert file[off + PTR_SZ..off + PTR_SZ + IDXLEN_SZ] == Padded(IDXLEN_SZ, len);
    assert file[off + PTR_SZ + IDXLEN_SZ..off + PTR_SZ + IDXLEN_SZ + len] == Body(r);
    PaddedRoundTrip(PTR_SZ, r.ptr);
    PaddedRoundTrip(IDXLEN_SZ, len);
    BodyRoundTrip(r);
  }

  /** A record of legal size is read back, or else stops whoever reads it, depending on
      whether its key is free of separators. */
  lemma RecordReadable(before: string, r: Rec, after: string)
    requires r.ptr <= PTR_MAX && IDXLEN_MIN <= |Body(r)| <= IDXLEN_MAX && 0 < r.datlen <= DATLEN_MAX
    ensures ReadIdx(before + Encode(r) + after, |before|) == if SEP in r.key then None else Some(r)
  {
    if SEP !in r.key {
      RecordRoundTrip(before, r, after);
    } else {
      hide ParseBody, Body, Encode, ReadIdx;
      ReadParts(before, r, after);
      BodyRejected(r);
    }
  }

  /** Reading takes the pointer and the length off and leaves the rest to be parsed. */
  lemma ReadParts(before: string, r: Rec, after: string)
    requires r.ptr <= PTR_MAX && IDXLEN_MIN <= |Body(r)| <= IDXLEN_MAX
    ensures ReadIdx(before + Encode(r) + after, |before|) == ParseBody(r.ptr, Body(r))
  {
    hide ParseBody, Body, Padded, Atol;
    var file, off, len := before + Encode(r) + after, |before|, |Body(r)|;
    EncodedSize(r);
    PtrFits(r.ptr);
    LenFits(len);
    assert file[off..off + PTR_SZ] == Padded(PTR_SZ, r.ptr);
    assert file[off + PTR_SZ..off + PTR_SZ + IDXLEN_SZ] == Padded(IDXLEN_SZ, len);
    assert file[off + PTR_SZ + IDXLEN_SZ..off + PTR_SZ + IDXLEN_SZ + len] == Body(r);
    PaddedRoundTrip(PTR_SZ, r.ptr);
    PaddedRoundTrip(IDXLEN_SZ, len);
  }
}
