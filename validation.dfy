/**
 * The pure helpers of provision.py: the identifier and date-shape checks
 * applied to every desired entry, the SSH key name, the first line of the
 * fetched public keys, and the server id read from `hcloud server create`.
 */
module Validation {
  import opened Wrappers
  import opened Dates

  // ---------------------------------------------------------------------
  // Regular-expression checks (re.match with ^ ... $)
  // ---------------------------------------------------------------------

  /** `$` without MULTILINE also matches just before one final newline, so that newline is ignored. */
  function WithoutFinalNewline(s: string): string {
    if |s| > 0 && s[|s| - 1] == '\n' then s[..|s| - 1] else s
  }

  predicate IsIdentifierChar(c: char) {
    'a' <= c <= 'z' || 'A' <= c <= 'Z' || '0' <= c <= '9' || c == '_' || c == '-'
  }

  /** `is_valid_identifier`: `^[a-zA-Z0-9_-]+$`. */
  predicate IsValidIdentifier(s: string) {
    var body := WithoutFinalNewline(s);
    |body| > 0 && forall i :: 0 <= i < |body| ==> IsIdentifierChar(body[i])
  }

  /** `\d{4}-\d{2}-\d{2}` over the whole text. */
  predicate HasDateShape(t: string) {
    |t| == 10 && t[4] == '-' && t[7] == '-'
    && IsDigit(t[0]) && IsDigit(t[1]) && IsDigit(t[2]) && IsDigit(t[3])
    && IsDigit(t[5]) && IsDigit(t[6]) && IsDigit(t[8]) && IsDigit(t[9])
  }

  /** `is_valid_date`: `^\d{4}-\d{2}-\d{2}$`; only the shape is checked, not the range. */
  predicate IsValidDateShape(s: string) {
    HasDateShape(WithoutFinalNewline(s))
  }

  /** The three numbers a date-shaped text spells. */
  function ShapeFields(t: string): Date
    requires HasDateShape(t)
  {
    Date(1000 * DigitValue(t[0]) + 100 * DigitValue(t[1]) + 10 * DigitValue(t[2]) + DigitValue(t[3]),
         10 * DigitValue(t[5]) + DigitValue(t[6]),
         10 * DigitValue(t[8]) + DigitValue(t[9]))
  }

  lemma EmptyIdentifierRejected()
    ensures !IsValidIdentifier("")
  {
  }

  /** A valid identifier holds no quote, blank or shell metacharacter; only a final newline slips through. */
  lemma IdentifierCharacters(s: string)
    requires IsValidIdentifier(s)
    ensures |s| > 0 && s[0] != '\n'
    ensures forall i :: 0 <= i < |s| ==> IsIdentifierChar(s[i]) || (i == |s| - 1 && s[i] == '\n')
  {
    var body := WithoutFinalNewline(s);
    assert forall i :: 0 <= i < |body| ==> body[i] == s[i];
  }

  /** The `$` quirk: one trailing newline is accepted by both checks, two are not. */
  lemma TrailingNewlineAccepted()
    ensures IsValidIdentifier("dev1\n") && !IsValidIdentifier("dev1\n\n")
    ensures IsValidDateShape("2030-01-01\n") && !IsValidDateShape("2030-01-01\n\n")
  {
    assert WithoutFinalNewline("dev1\n") == "dev1";
    var twice := "dev1\n\n";
    assert WithoutFinalNewline(twice) == twice[..5] && twice[..5][4] == '\n';
    var date := "2030-01-01";
    assert WithoutFinalNewline(date + "\n") == date;
    assert HasDateShape(date);
    assert |WithoutFinalNewline(date + "\n\n")| == 11;
    assert date + "\n" == "2030-01-01\n" && date + "\n\n" == "2030-01-01\n\n";
  }

  /**
   * On a date-shaped text the shape check and strptime disagree exactly when
   * the spelled numbers are no calendar date.
   */
  lemma ShapeAndParseAgree(t: string)
    requires HasDateShape(t)
    ensures ParseDate(t).Some? <==> IsValid(ShapeFields(t))
    ensures ParseDate(t).Some? ==> ParseDate(t) == Some(ShapeFields(t))
  {
    var rest := t[5..];
    assert rest[2] == '-' && rest[1] != '-';
    assert t[..4] == [t[0], t[1], t[2], t[3]];
    assert rest[..2] == [t[5], t[6]];
    assert rest[3..] == [t[8], t[9]];
    assert YearField(t[..4]) == Some(ShapeFields(t).year);
    var f := ShapeFields(t);
    if IsValid(f) {
      assert MonthField(rest[..2]) == Some(f.month);
      assert DayField(rest[3..]) == Some(f.day);
    } else if 1 <= f.month <= 12 && 1 <= f.day <= 31 && 1 <= f.year {
      assert MonthField(rest[..2]) == Some(f.month);
      assert DayField(rest[3..]) == Some(f.day);
    }
  }

  /** The shape check lets an impossible date through; strptime rejects it. */
  lemma ShapeAdmitsImpossibleDate()
    ensures IsValidDateShape("2024-13-40") && ParseDate("2024-13-40") == None
  {
    ShapeAndParseAgree("2024-13-40");
  }

  /**
   * strptime takes one-digit month and day fields that the shape check
   * refuses, and a space-padded day, but not a space-padded month.
   */
  lemma ParseAcceptsShortFields()
    ensures !IsValidDateShape("2024-1-5") && ParseDate("2024-1-5") == Some(Date(2024, 1, 5))
    ensures ParseDate("2024-01- 5") == Some(Date(2024, 1, 5))
    ensures ParseDate("2024- 1-05") == None
  {
    var s := "2024-1-5";
    assert s[..4] == "2024" && YearField(s[..4]) == Some(2024);
    assert s[5..][1] == '-' && s[5..][..1] == "1" && s[5..][2..] == "5";
    assert MonthField("1") == Some(1) && DayField("5") == Some(5);
    assert IsValid(Date(2024, 1, 5));
    var t := "2024-01- 5";
    assert t[..4] == "2024";
    assert t[5..][1] != '-' && t[5..][2] == '-' && t[5..][..2] == "01" && t[5..][3..] == " 5";
    assert MonthField("01") == Some(1) && DayField(" 5") == Some(5);
    var u := "2024- 1-05";
    assert u[5..][1] != '-' && u[5..][2] == '-' && u[5..][..2] == " 1";
    assert MonthField(" 1") == None;
  }

  /** A YAML date turned into text by `str()` always has the date shape. */
  lemma FormattedDateHasShape(d: Date)
    requires IsValid(d)
    ensures IsValidDateShape(FormatDate(d))
    ensures ShapeFields(FormatDate(d)) == d
  {
    var t := FormatDate(d);
    PaddedFour(d.year);
    PaddedTwo(d.month);
    PaddedTwo(d.day);
    FourDigits(d.year);
    assert t == Padded(d.year, 4) + "-" + Padded(d.month, 2) + "-" + Padded(d.day, 2);
    assert WithoutFinalNewline(t) == t;
  }

  // ---------------------------------------------------------------------
  // SSH key name and public key
  // ---------------------------------------------------------------------

  /** The per-user key name: `{key}-github-key`. */
  function SshKeyName(key: string): string {
    key + "-github-key"
  }

  /** Different users never share a key name, so a key is reused only by its own user. */
  lemma SshKeyNameInjective(a: string, b: string)
    requires SshKeyName(a) == SshKeyName(b)
    ensures a == b
  {
    assert |a| == |b|;
    assert a == SshKeyName(a)[..|a|];
    assert b == SshKeyName(b)[..|b|];
  }

  /** A key name derived from a newline-free valid user is itself a valid identifier. */
  lemma SshKeyNameIsIdentifier(key: string)
    requires IsValidIdentifier(key) && key[|key| - 1] != '\n'
    ensures IsValidIdentifier(SshKeyName(key))
  {
    var n := SshKeyName(key);
    assert WithoutFinalNewline(key) == key;
    assert WithoutFinalNewline(n) == n;
    forall i | 0 <= i < |n| ensures IsIdentifierChar(n[i]) {
      if i < |key| { assert n[i] == key[i]; }
    }
  }

  /** `ssh_keys.split('\n')[0]`: the text up to the first newline. */
  function FirstLine(text: string): (line: string)
    ensures '\n' !in line
    ensures |line| <= |text| && line == text[..|line|]
    ensures |line| < |text| ==> text[|line|] == '\n'
  {
    if text == [] || text[0] == '\n' then [] else [text[0]] + FirstLine(text[1..])
  }

  // ---------------------------------------------------------------------
  // Server id from the output of `hcloud server create`
  // ---------------------------------------------------------------------

  /** The characters `str.split()` splits on. */
  predicate IsSpace(c: char) {
    var n := c as int;
    (9 <= n <= 13) || (28 <= n <= 32) || n == 0x85 || n == 0xA0 || n == 0x1680
    || (0x2000 <= n <= 0x200A) || n == 0x2028 || n == 0x2029 || n == 0x202F
    || n == 0x205F || n == 0x3000
  }

  predicate IsWord(w: string) {
    |w| > 0 && forall i :: 0 <= i < |w| ==> !IsSpace(w[i])
  }

  /** Length of the run of non-blank characters `s` starts with. */
  function WordLength(s: string): (n: nat)
    ensures n <= |s|
    ensures forall i :: 0 <= i < n ==> !IsSpace(s[i])
    ensures n < |s| ==> IsSpace(s[n])
  {
    if s == [] || IsSpace(s[0]) then 0 else 1 + WordLength(s[1..])
  }

  /** `s.split()`: the maximal runs of non-blank characters, in order. */
  function Words(s: string): (ws: seq<string>)
    ensures forall k :: 0 <= k < |ws| ==> IsWord(ws[k])
    decreases |s|
  {
    if s == [] then []
    else if IsSpace(s[0]) then Words(s[1..])
    else
      var n := WordLength(s);
      [s[..n]] + Words(s[n..])
  }

  predicate IsDigits(w: string) {
    |w| > 0 && forall i :: 0 <= i < |w| ==> IsDigit(w[i])
  }

  /** The second whitespace-separated token of the output, when it is all digits. */
  function ParseServerId(output: string): Option<string> {
    var ws := Words(output);
    if |ws| >= 2 && IsDigits(ws[1]) then Some(ws[1]) else None
  }

  lemma WordThenRest(w: string, rest: string)
    requires IsWord(w)
    requires rest == [] || IsSpace(rest[0])
    ensures Words(w + rest) == [w] + Words(rest)
  {
    var s := w + rest;
    assert forall i :: 0 <= i < |w| ==> s[i] == w[i];
    assert |w| < |s| ==> s[|w|] == rest[0];
    assert WordLength(s) == |w|;
    assert s[..|w|] == w && s[|w|..] == rest;
  }

  /** Text made of blanks only. */
  predicate IsBlanks(b: string) {
    forall i :: 0 <= i < |b| ==> IsSpace(b[i])
  }

  /** Leading blanks are dropped; text of blanks only has no words. */
  lemma {:induction false} LeadingBlanksDropped(b: string, t: string)
    requires IsBlanks(b)
    ensures Words(b + t) == Words(t)
    ensures t == [] ==> Words(b) == []
    decreases |b|
  {
    if b != [] {
      assert (b + t)[0] == b[0] && (b + t)[1..] == b[1..] + t;
      LeadingBlanksDropped(b[1..], t);
    } else {
      assert b + t == t;
    }
    if t == [] {
      assert b + t == b;
    }
  }

  /** Blanks, then a word up to a blank or the end: that word comes first, then the words of the rest. */
  lemma BlanksThenWord(b: string, w: string, rest: string)
    requires IsBlanks(b) && IsWord(w)
    requires rest == [] || IsSpace(rest[0])
    ensures Words(b + w + rest) == [w] + Words(rest)
  {
    assert b + w + rest == b + (w + rest);
    LeadingBlanksDropped(b, w + rest);
    WordThenRest(w, rest);
  }

  /** `blanks[0] + ws[0] + blanks[1] + … + ws[n-1] + blanks[n]`. */
  function Interleaved(ws: seq<string>, blanks: seq<string>): string
    requires |blanks| == |ws| + 1
  {
    if ws == [] then blanks[0] else blanks[0] + ws[0] + Interleaved(ws[1..], blanks[1..])
  }

  /**
   * `str.split()` gives back exactly the words of any text made of words
   * separated by non-empty runs of blanks, with blanks allowed at either end.
   */
  lemma {:induction false} SplitInterleaved(ws: seq<string>, blanks: seq<string>)
    requires |blanks| == |ws| + 1
    requires forall k :: 0 <= k < |ws| ==> IsWord(ws[k])
    requires forall k :: 0 <= k < |blanks| ==> IsBlanks(blanks[k])
    requires forall k :: 0 < k < |ws| ==> blanks[k] != []
    ensures Words(Interleaved(ws, blanks)) == ws
    decreases |ws|
  {
    if ws == [] {
      LeadingBlanksDropped(blanks[0], []);
    } else {
      var rest := Interleaved(ws[1..], blanks[1..]);
      assert rest == [] || IsSpace(rest[0]) by {
        if ws[1..] == [] {
          assert rest == blanks[1];
          assert IsBlanks(blanks[1]);
        } else {
          assert rest == blanks[1] + ws[1] + Interleaved(ws[2..], blanks[2..]);
          assert blanks[1] != [] && IsBlanks(blanks[1]);
          assert rest[0] == blanks[1][0];
        }
      }
      BlanksThenWord(blanks[0], ws[0], rest);
      SplitInterleaved(ws[1..], blanks[1..]);
    }
  }

  /** The id `hcloud` prints in "Server <id> created" is the one extracted. */
  lemma ServerIdFromCreateOutput(id: string, tail: string)
    requires IsDigits(id)
    requires tail == [] || IsSpace(tail[0])
    ensures ParseServerId("Server " + id + tail) == Some(id)
  {
    var s := "Server " + id + tail;
    assert IsWord("Server");
    assert IsWord(id);
    WordThenRest("Server", " " + id + tail);
    assert s == "Server" + (" " + id + tail);
    var r := " " + id + tail;
    assert r[1..] == id + tail;
    assert Words(r) == Words(id + tail);
    WordThenRest(id, tail);
  }
}
