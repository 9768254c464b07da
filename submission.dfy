/**
 * The add-archive flow: the draft form, the record synthesized from it on submit,
 * the file-size string and the QR confirmation token `archive:{title}-{millis}`.
 */
module Submission {
  import opened Text

  datatype Option<+T> = None | Some(value: T)

  /** The three properties of a picked file that the form reads. */
  datatype FileInfo = FileInfo(name: string, mediaType: string, size: nat)

  /** The form state behind the add-archive modal. */
  datatype Draft = Draft(
    title: string,
    description: string,
    category: string,
    recipients: string,
    file: Option<FileInfo>)

  const EmptyDraft: Draft := Draft("", "", "", "", None)

  /** The object built on submit: the draft's fields spread, plus the derived ones. */
  datatype SubmittedArchive = SubmittedArchive(
    title: string,
    description: string,
    category: string,
    recipients: string,
    file: Option<FileInfo>,
    id: nat,
    date: nat,
    fileType: string,
    size: string,
    author: string)

  const Unknown: string := "Unknown"
  const CurrentUser: string := "Current User"

  // ---------------------------------------------------------------------------
  // Size string: `${(size / 1024 / 1024).toFixed(2)} MB`
  // ---------------------------------------------------------------------------

  const Mebibyte: nat := 1048576

  /**
   * The integer n that toFixed(2) prints as n/100 for size/2^20 mebibytes. The
   * quotient is exact in binary floating point, and toFixed takes the n closest
   * to 100 * size / 2^20, the larger one on a tie.
   */
  function Hundredths(size: nat): (n: nat)
    ensures -(Mebibyte / 2) <= 100 * size - n * Mebibyte < Mebibyte / 2
  {
    (100 * size + Mebibyte / 2) / Mebibyte
  }

  /** No other integer satisfies that rounding rule. */
  lemma HundredthsUnique(size: nat, m: int)
    requires -(Mebibyte / 2) <= 100 * size - m * Mebibyte < Mebibyte / 2
    ensures m == Hundredths(size)
  {
    var n := Hundredths(size);
    if m < n {
      assert false;
    } else if m > n {
      assert false;
    }
  }

  function TwoDigits(k: nat): (s: string)
    requires k < 100
    ensures |s| == 2 && IsDigit(s[0]) && IsDigit(s[1])
    ensures DigitValue(s[0]) * 10 + DigitValue(s[1]) == k
  {
    [DigitChar(k / 10), DigitChar(k % 10)]
  }

  /**
   * The size string: a numeral for the whole mebibytes, a point, two digits and
   * " MB", together denoting Hundredths(size) hundredths.
   */
  function MegabyteString(size: nat): (s: string)
    ensures |s| >= 7
    ensures var k := |s| - 6;
      s[k] == '.' && s[k + 3..] == " MB" && IsCanonicalNumeral(s[..k]) &&
      IsDigit(s[k + 1]) && IsDigit(s[k + 2]) &&
      100 * ParseNat(s[..k]) + 10 * DigitValue(s[k + 1]) + DigitValue(s[k + 2]) == Hundredths(size)
  {
    var n := Hundredths(size);
    var whole := NatToString(n / 100);
    var frac := TwoDigits(n % 100);
    NatToStringCanonical(n / 100);
    ParseNatToString(n / 100);
    var s := whole + "." + frac + " MB";
    assert s[..|whole|] == whole;
    assert s[|whole| + 1] == frac[0] && s[|whole| + 2] == frac[1];
    s
  }

  /** 2,097,152 bytes are shown as "2.00 MB". */
  lemma TwoMebibytes()
    ensures MegabyteString(2097152) == "2.00 MB"
  {
    assert Hundredths(2097152) == 200;
    assert NatToString(2) == "2";
  }

  /** 131,072 bytes are exactly 0.125 MiB, a tie, and toFixed(2) rounds it up to "0.13 MB". */
  lemma EighthMebibyte()
    ensures MegabyteString(131072) == "0.13 MB"
  {
    assert Hundredths(131072) == 13;
    assert NatToString(0) == "0";
  }

  // ---------------------------------------------------------------------------
  // The synthesized record
  // ---------------------------------------------------------------------------

  /** `file?.type || 'Unknown'`: an absent file or an empty media type gives "Unknown". */
  function TypeOf(file: Option<FileInfo>): (t: string)
    ensures file.Some? && file.value.mediaType != "" ==> t == file.value.mediaType
    ensures file.None? || file.value.mediaType == "" ==> t == Unknown
  {
    if file.Some? && file.value.mediaType != "" then file.value.mediaType else Unknown
  }

  /** `file?.size ? ... : 'Unknown'`: an absent file or a size of 0 gives "Unknown". */
  function SizeOf(file: Option<FileInfo>): (s: string)
    ensures file.Some? && file.value.size != 0 ==> s == MegabyteString(file.value.size)
    ensures file.None? || file.value.size == 0 ==> s == Unknown
  {
    if file.Some? && file.value.size != 0 then MegabyteString(file.value.size) else Unknown
  }

  /**
   * The record built on submit. `idNow` and `dateNow` are the two clock readings
   * the handler takes (for the identifier and for the date).
   */
  function Synthesize(d: Draft, idNow: nat, dateNow: nat): (r: SubmittedArchive)
    ensures r.title == d.title && r.description == d.description && r.category == d.category
    ensures r.recipients == d.recipients && r.file == d.file
    ensures r.id == idNow && r.date == dateNow
    ensures r.fileType == TypeOf(d.file) && r.size == SizeOf(d.file)
    ensures r.author == CurrentUser
  {
    SubmittedArchive(d.title, d.description, d.category, d.recipients, d.file,
                     idNow, dateNow, TypeOf(d.file), SizeOf(d.file), CurrentUser)
  }

  // ---------------------------------------------------------------------------
  // The QR confirmation token
  // ---------------------------------------------------------------------------

  const QrPrefix: string := "archive:"

  function QrPayload(title: string, now: nat): (s: string)
    ensures |s| > |QrPrefix| + |title| && s[..|QrPrefix|] == QrPrefix
  {
    QrPrefix + title + "-" + NatToString(now)
  }

  datatype QrToken = QrToken(title: string, time: nat)

  /** The position of the last `c` in `s`, or -1 when there is none. */
  function LastIndexOf(s: string, c: char): (k: int)
    ensures -1 <= k < |s|
    ensures k >= 0 ==> s[k] == c
    ensures forall i :: k < i < |s| ==> s[i] != c
  {
    if s == [] then -1
    else if s[|s| - 1] == c then |s| - 1
    else LastIndexOf(s[..|s| - 1], c)
  }

  /**
   * Reads a token back: the prefix, then everything up to the last hyphen as the
   * title (a title may itself contain hyphens), then a canonical numeral.
   */
  function ParseQrPayload(s: string): (r: Option<QrToken>)
    ensures r.Some? ==> |s| >= |QrPrefix| && s[..|QrPrefix|] == QrPrefix
  {
    if |s| < |QrPrefix| || s[..|QrPrefix|] != QrPrefix then None
    else
      var rest := s[|QrPrefix|..];
      var k := LastIndexOf(rest, '-');
      if k < 0 || !IsCanonicalNumeral(rest[k + 1..]) then None
      else Some(QrToken(rest[..k], ParseNat(rest[k + 1..])))
  }

  /** The title and the time can be read back from every token. */
  lemma QrRoundTrip(title: string, now: nat)
    ensures ParseQrPayload(QrPayload(title, now)) == Some(QrToken(title, now))
  {
    var s := QrPayload(title, now);
    var digits := NatToString(now);
    var rest := s[|QrPrefix|..];
    assert rest == title + "-" + digits;
    var k := |title|;
    assert rest[k] == '-';
    forall i | k < i < |rest| ensures rest[i] != '-' {
      assert rest[i] == digits[i - k - 1];
    }
    assert LastIndexOf(rest, '-') == k;
    assert rest[..k] == title && rest[k + 1..] == digits;
    NatToStringCanonical(now);
    ParseNatToString(now);
  }

  /** Whatever the parser accepts is a token some title and time produce. */
  lemma QrParseSound(s: string, t: QrToken)
    requires ParseQrPayload(s) == Some(t)
    ensures s == QrPayload(t.title, t.time)
  {
    var rest := s[|QrPrefix|..];
    var k := LastIndexOf(rest, '-');
    NatToStringParse(rest[k + 1..]);
    assert rest == rest[..k] + "-" + rest[k + 1..];
    assert s == QrPrefix + rest;
  }

  /** A draft titled "Q1 Report" with no file yields "Unknown" type and size and a matching token. */
  lemma NoFileScenario(idNow: nat, dateNow: nat, qrNow: nat)
    ensures var d := Draft("Q1 Report", "", "", "", None);
      var r := Synthesize(d, idNow, dateNow);
      r.fileType == Unknown && r.size == Unknown && r.author == CurrentUser &&
      QrPayload(r.title, qrNow)[..18] == "archive:Q1 Report-"
  {
  }
}
