/** The bulk tag updater form: S3 URLs one per line, tags with counts as
    `tag,count,tag,count`, and an add/remove switch. On submit the form
    checks the login, parses both fields, enforces the pair shape and the
    numeric counts, and only then builds the request. */
module ManualTagging {
  import opened JsString
  import opened Requests

  /** The operation codes the request carries. */
  const ADD: int := 1
  const REMOVE: int := 0

  const LOGIN_REQUIRED := "You must be logged in."
  const BAD_SHAPE := "Please enter valid URLs and comma-separated tags with counts. Format: tag,count,tag,count"
  const SENDING := "Sending request..."

  /** The message naming the tag whose count fails `isNaN`: the tag's text
      appears in it verbatim, after a fixed 21-character lead. */
  function CountNotNumber(tag: string): (message: string)
    ensures OccursAt(message, tag, 21) && Includes(message, tag)
  {
    "Count value for tag \"" + tag + "\" must be a number."
  }

  /** The JSON body `{url, tags, operation}` and its bearer header. */
  datatype BulkTagRequest = BulkTagRequest(authorization: string, url: seq<string>, tags: seq<string>, operation: int)

  // -----------------------------------------------------------------------
  // isNaN on a string: the ECMAScript StringNumericLiteral grammar
  // -----------------------------------------------------------------------

  /** Where a left-to-right reading of a StringNumericLiteral stands:
      before anything (leading whitespace included), after a sign, after a leading `0`, in the integer
      digits, after a `.` with no digit before it, in the fraction, in the
      three parts of an exponent, in a `0x`/`0o`/`0b` literal of the given
      base, `k` letters into `Infinity`, or in the trailing whitespace. */
  datatype NumState =
    | Start | Signed | Zero | IntDigits | BareDot | Fraction
    | ExpMark | ExpSign | ExpDigits
    | RadixMark(base: nat) | RadixDigits(base: nat)
    | Infinity(k: nat) | Trailing

  const INFINITY := "Infinity"

  predicate IsDigitOfBase(c: char, base: nat) {
    if base == 16 then IsDigit(c) || ('a' <= c <= 'f') || ('A' <= c <= 'F')
    else if base == 8 then '0' <= c <= '7'
    else c == '0' || c == '1'
  }

  /** The states in which the string may end: after a complete literal,
      or with no literal at all (`Number("")` and `Number("  ")` are 0). */
  predicate IsFinal(st: NumState) {
    || st.Start? || st.Zero? || st.IntDigits? || st.Fraction? || st.ExpDigits?
    || st.RadixDigits? || st == Infinity(|INFINITY|) || st.Trailing?
  }

  /** One character of the grammar StringNumericLiteral of ECMAScript:
      optional whitespace around StrDecimalLiteral (`Infinity`, digits with
      an optional fraction and exponent, an optional sign in front) or
      NonDecimalIntegerLiteral (`0x`, `0o`, `0b` and digits, unsigned). */
  function Step(st: NumState, c: char): Option<NumState> {
    if IsWhitespace(c) then
      if st.Start? then Some(Start)
      else if IsFinal(st) then Some(Trailing)
      else None
    else
    match st
    case Trailing => None
    case Start =>
      if c == '+' || c == '-' then Some(Signed)
      else if c == '0' then Some(Zero)
      else if IsDigit(c) then Some(IntDigits)
      else if c == '.' then Some(BareDot)
      else if c == INFINITY[0] then Some(Infinity(1))
      else None
    case Signed =>
      if IsDigit(c) then Some(IntDigits)
      else if c == '.' then Some(BareDot)
      else if c == INFINITY[0] then Some(Infinity(1))
      else None
    case Zero =>
      if c == 'x' || c == 'X' then Some(RadixMark(16))
      else if c == 'o' || c == 'O' then Some(RadixMark(8))
      else if c == 'b' || c == 'B' then Some(RadixMark(2))
      else if IsDigit(c) then Some(IntDigits)
      else if c == '.' then Some(Fraction)
      else if c == 'e' || c == 'E' then Some(ExpMark)
      else None
    case IntDigits =>
      if IsDigit(c) then Some(IntDigits)
      else if c == '.' then Some(Fraction)
      else if c == 'e' || c == 'E' then Some(ExpMark)
      else None
    case BareDot =>
      if IsDigit(c) then Some(Fraction) else None
    case Fraction =>
      if IsDigit(c) then Some(Fraction)
      else if c == 'e' || c == 'E' then Some(ExpMark)
      else None
    case ExpMark =>
      if c == '+' || c == '-' then Some(ExpSign)
      else if IsDigit(c) then Some(ExpDigits)
      else None
    case ExpSign =>
      if IsDigit(c) then Some(ExpDigits) else None
    case ExpDigits =>
      if IsDigit(c) then Some(ExpDigits) else None
    case RadixMark(b) =>
      if IsDigitOfBase(c, b) then Some(RadixDigits(b)) else None
    case RadixDigits(b) =>
      if IsDigitOfBase(c, b) then Some(RadixDigits(b)) else None
    case Infinity(k) =>
      if k < |INFINITY| && c == INFINITY[k] then Some(Infinity(k + 1)) else None
  }

  /** Whether the rest of the literal, read from state `st`, is well formed. */
  function Accepts(s: string, st: NumState): bool {
    if s == [] then IsFinal(st)
    else
      match Step(st, s[0])
      case None => false
      case Some(next) => Accepts(s[1..], next)
  }

  /** `!isNaN(s)` for a string `s`: `Number(s)` is a number exactly when
      `s` is a StringNumericLiteral. */
  predicate IsNumeric(s: string) {
    Accepts(s, Start)
  }

  predicate AllDigits(s: string) {
    forall i :: 0 <= i < |s| ==> IsDigit(s[i])
  }

  lemma {:induction false} DigitsAfterInteger(s: string)
    requires AllDigits(s)
    ensures Accepts(s, IntDigits)
    decreases |s|
  {
    if s != [] {
      DigitsAfterInteger(s[1..]);
    }
  }

  /** Any run of decimal digits is a count `isNaN` accepts. */
  lemma DigitsAreNumeric(s: string)
    requires s != [] && AllDigits(s)
    ensures IsNumeric(s)
  {
    DigitsAfterInteger(s[1..]);
  }

  /** No whitespace character lies between `A` and `z`. */
  lemma LettersAreNotWhitespace(c: char)
    requires 'A' <= c <= 'z'
    ensures !IsWhitespace(c)
  {
  }

  /** Every suffix of `Infinity` completes the word from the matching state. */
  lemma {:induction false} InfinityRest(k: nat)
    requires k <= |INFINITY|
    ensures Accepts(INFINITY[k..], Infinity(k))
    decreases |INFINITY| - k
  {
    if k < |INFINITY| {
      InfinityRest(k + 1);
      var c := INFINITY[k];
      assert INFINITY[k..] == [c] + INFINITY[k + 1..];
      assert 'A' <= c <= 'z';
      LettersAreNotWhitespace(c);
      assert Step(Infinity(k), c) == Some(Infinity(k + 1));
    }
  }

  /** `isNaN` lets through the word `Infinity`. */
  lemma InfinityIsNumeric()
    ensures IsNumeric("Infinity")
  {
    InfinityRest(1);
  }

  /** `isNaN` lets through a count with blanks around it. */
  lemma PaddedCountIsNumeric()
    ensures IsNumeric(" 12 ")
  {
    assert " 12 "[1..] == "12 " && "12 "[1..] == "2 " && "2 "[1..] == " " && " "[1..] == [];
  }

  /** `isNaN` lets through a blank string (`Number(" ")` is 0). */
  lemma BlankIsNumeric()
    ensures IsNumeric(" ")
  {
    assert " "[1..] == [];
  }

  /** `isNaN` lets through an exponent. */
  lemma ExponentIsNumeric()
    ensures IsNumeric("1e3")
  {
    assert "1e3"[1..] == "e3" && "e3"[1..] == "3" && "3"[1..] == [];
  }

  /** `isNaN` lets through a signed fraction. */
  lemma SignedFractionIsNumeric()
    ensures IsNumeric("-1.5")
  {
    assert "-1.5"[1..] == "1.5" && "1.5"[1..] == ".5" && ".5"[1..] == "5" && "5"[1..] == [];
  }

  /** `isNaN` lets through a fraction with no integer part. */
  lemma BareFractionIsNumeric()
    ensures IsNumeric(".5")
  {
    assert ".5"[1..] == "5" && "5"[1..] == [];
  }

  /** `isNaN` lets through a hexadecimal literal. */
  lemma HexIsNumeric()
    ensures IsNumeric("0x1f")
  {
    assert "0x1f"[1..] == "x1f" && "x1f"[1..] == "1f" && "1f"[1..] == "f" && "f"[1..] == [];
  }

  /** `isNaN` lets through an octal literal. */
  lemma OctalIsNumeric()
    ensures IsNumeric("0o17")
  {
    assert "0o17"[1..] == "o17" && "o17"[1..] == "17" && "17"[1..] == "7" && "7"[1..] == [];
  }

  /** `isNaN` lets through a binary literal. */
  lemma BinaryIsNumeric()
    ensures IsNumeric("0b101")
  {
    assert "0b101"[1..] == "b101" && "b101"[1..] == "101" && "101"[1..] == "01" && "01"[1..] == "1" && "1"[1..] == [];
  }

  /** `isNaN` rejects a digit outside the literal's base. */
  lemma BadBinaryDigitIsNotNumeric()
    ensures !IsNumeric("0b2")
  {
    assert "0b2"[1..] == "b2" && "b2"[1..] == "2";
  }

  /** `isNaN` rejects a word. */
  lemma WordIsNotNumeric()
    ensures !IsNumeric("two")
  {
  }

  /** `isNaN` rejects digit separators. */
  lemma SeparatorIsNotNumeric()
    ensures !IsNumeric("1_000")
  {
    assert "1_000"[1..] == "_000";
  }

  /** `isNaN` rejects a radix prefix with no digits. */
  lemma BarePrefixIsNotNumeric()
    ensures !IsNumeric("0x")
  {
    assert "0x"[1..] == "x" && "x"[1..] == [];
  }

  /** `isNaN` rejects a lone point. */
  lemma LonePointIsNotNumeric()
    ensures !IsNumeric(".")
  {
  }

  /** `isNaN` rejects a signed hexadecimal literal. */
  lemma SignedHexIsNotNumeric()
    ensures !IsNumeric("-0x1")
  {
    assert "-0x1"[1..] == "0x1" && "0x1"[1..] == "x1";
  }

  /** `isNaN` rejects a blank inside a number. */
  lemma InnerBlankIsNotNumeric()
    ensures !IsNumeric("1 2")
  {
    assert "1 2"[1..] == " 2" && " 2"[1..] == "2";
  }

  /** Whitespace alone ends a literal exactly where the string may end. */
  lemma {:induction false} WhitespaceTail(w: string, st: NumState)
    requires AllWhitespace(w)
    ensures Accepts(w, st) == IsFinal(st)
    decreases |w|
  {
    if w != [] && IsFinal(st) {
      var next := if st.Start? then Start else Trailing;
      assert Step(st, w[0]) == Some(next);
      WhitespaceTail(w[1..], next);
    }
  }

  /** Whitespace after the rest of a literal changes nothing. */
  lemma {:induction false} PaddingAfter(t: string, w: string, st: NumState)
    requires AllWhitespace(w)
    ensures Accepts(t + w, st) == Accepts(t, st)
    decreases |t|
  {
    if t == [] {
      assert t + w == w;
      WhitespaceTail(w, st);
    } else {
      assert (t + w)[0] == t[0] && (t + w)[1..] == t[1..] + w;
      match Step(st, t[0])
      case None =>
      case Some(next) => PaddingAfter(t[1..], w, next);
    }
  }

  /** Whitespace before a literal changes nothing. */
  lemma {:induction false} PaddingBefore(w: string, x: string)
    requires AllWhitespace(w)
    ensures Accepts(w + x, Start) == Accepts(x, Start)
    decreases |w|
  {
    if w != [] {
      assert (w + x)[0] == w[0] && (w + x)[1..] == w[1..] + x;
      assert IsWhitespace(w[0]) && Step(Start, w[0]) == Some(Start);
      assert Accepts(w + x, Start) == Accepts(w[1..] + x, Start);
      PaddingBefore(w[1..], x);
    } else {
      assert w + x == x;
    }
  }

  /** `isNaN` ignores surrounding whitespace, as StringToNumber does: a
      string passes exactly when its trimmed text does. In particular the
      trimmed tokens the form checks pass exactly when the raw pieces would. */
  lemma NumericIgnoresPadding(s: string)
    ensures IsNumeric(s) <==> IsNumeric(Trim(s))
  {
    var t := TrimStart(s);
    TrimStartSplit(s);
    PaddingBefore(s[..|s| - |t|], t);
    var r := TrimEnd(t);
    TrimEndSplit(t);
    PaddingAfter(r, t[|r|..], Start);
  }

  // -----------------------------------------------------------------------
  // Parsing the two fields
  // -----------------------------------------------------------------------

  /** `urls.split('\n').map(u => u.trim()).filter(Boolean)`. */
  function ParseUrls(text: string): seq<string> {
    Tokens(text, '\n', Trim)
  }

  /** `tags.split(',').map(t => t.trim()).filter(Boolean)`. */
  function ParseTags(text: string): seq<string> {
    Tokens(text, ',', Trim)
  }

  /** A token is trimmed, non-empty and free of its separator. */
  lemma TrimTokensClean(text: string, sep: char)
    ensures forall t :: t in Tokens(text, sep, Trim) ==> t != [] && IsTrimmed(t) && sep !in t
  {
    forall t | t in Tokens(text, sep, Trim)
      ensures t != [] && IsTrimmed(t) && sep !in t
    {
      TokenOrigin(text, sep, Trim, t);
      var p :| p in Split(text, sep) && Trim(p) == t;
      if sep in t {
        TrimChars(p, sep);
      }
    }
  }

  /** Every parsed URL is trimmed, non-empty and a single line. */
  lemma ParsedUrlsClean(text: string)
    ensures forall u :: u in ParseUrls(text) ==> u != [] && IsTrimmed(u) && '\n' !in u
  {
    TrimTokensClean(text, '\n');
  }

  /** URLs keep the order of the lines: the URLs of two blocks of lines are
      those of the first block followed by those of the second, and a line
      contributes its trimmed text unless that is empty. */
  lemma ParseUrlsInLineOrder(a: string, b: string, line: string)
    requires '\n' !in line
    ensures ParseUrls(a + "\n" + b) == ParseUrls(a) + ParseUrls(b)
    ensures ParseUrls(line) == if Trim(line) == [] then [] else [Trim(line)]
  {
    TokensAppend(a, b, '\n', Trim);
    TokensOfPiece(line, '\n', Trim);
  }

  /** Every parsed tag token is trimmed, non-empty and comma-free. */
  lemma ParsedTagsClean(text: string)
    ensures forall t :: t in ParseTags(text) ==> t != [] && IsTrimmed(t) && ',' !in t
  {
    TrimTokensClean(text, ',');
  }

  /** Tag tokens keep input order, in the same sense as ParseUrlsInLineOrder. */
  lemma ParseTagsInOrder(a: string, b: string, piece: string)
    requires ',' !in piece
    ensures ParseTags(a + "," + b) == ParseTags(a) + ParseTags(b)
    ensures ParseTags(piece) == if Trim(piece) == [] then [] else [Trim(piece)]
  {
    TokensAppend(a, b, ',', Trim);
    TokensOfPiece(piece, ',', Trim);
  }

  /** There are no URLs exactly when every line is blank. */
  lemma NoUrlsIff(text: string)
    ensures ParseUrls(text) == [] <==> !HasContent(text, '\n')
  {
    forall p ensures Trim(p) == [] <==> AllWhitespace(p) {
      TrimEmptyIff(p);
    }
    TokensEmptyIff(text, '\n', Trim);
  }

  // -----------------------------------------------------------------------
  // Validation and the request
  // -----------------------------------------------------------------------

  /** `auth?.user?.access_token` is truthy: present and not the empty string. */
  predicate HasToken(token: Option<string>) {
    token.Some? && token.value != []
  }

  /** At least one pair, and whole pairs only. */
  predicate IsPairShaped(tags: seq<string>) {
    |tags| >= 2 && |tags| % 2 == 0
  }

  /** Every count (odd position) passes `isNaN`. */
  predicate CountsNumeric(tags: seq<string>) {
    forall j :: 0 <= j < |tags| && j % 2 == 1 ==> IsNumeric(tags[j])
  }

  /** The first odd position at or after `from` whose token is not numeric. */
  function FirstBadCount(tags: seq<string>, from: nat): (r: Option<nat>)
    requires from % 2 == 1
    ensures r.None? <==> forall j :: from <= j < |tags| && j % 2 == 1 ==> IsNumeric(tags[j])
    ensures r.Some? ==> && from <= r.value < |tags| && r.value % 2 == 1
                         && !IsNumeric(tags[r.value])
                         && forall j :: from <= j < r.value && j % 2 == 1 ==> IsNumeric(tags[j])
    decreases |tags| - from
  {
    if from >= |tags| then None
    else if !IsNumeric(tags[from]) then Some(from)
    else FirstBadCount(tags, from + 2)
  }

  /** The count check of the submit handler: the loop over `i = 1, 3, 5, ...`
      that stops at the first count `isNaN` rejects. */
  method CheckCounts(tags: seq<string>) returns (bad: Option<nat>)
    ensures bad == FirstBadCount(tags, 1)
  {
    var i := 1;
    while i < |tags|
      invariant i >= 1 && i % 2 == 1
      invariant FirstBadCount(tags, i) == FirstBadCount(tags, 1)
      decreases |tags| - i
    {
      if !IsNumeric(tags[i]) {
        return Some(i);
      }
      i := i + 2;
    }
    return None;
  }

  /** What submitting the form decides, given the access token and the
      contents of the fields. */
  function Evaluate(token: Option<string>, urlsText: string, tagsText: string, operation: int): Outcome<BulkTagRequest> {
    if !HasToken(token) then Rejected(LOGIN_REQUIRED)
    else
      var urls := ParseUrls(urlsText);
      var tags := ParseTags(tagsText);
      if |urls| == 0 || |tags| < 2 || |tags| % 2 != 0 then Rejected(BAD_SHAPE)
      else
        match FirstBadCount(tags, 1)
        case Some(k) => Rejected(CountNotNumber(tags[k - 1]))
        case None => Accepted(BulkTagRequest("Bearer " + token.value, urls, tags, operation))
  }

  /** Without a token the form stops before parsing anything. */
  lemma LoginChecksFirst(token: Option<string>, urlsText: string, tagsText: string, operation: int)
    requires !HasToken(token)
    ensures Evaluate(token, urlsText, tagsText, operation) == Rejected(LOGIN_REQUIRED)
  {
  }

  /** The form sends a request exactly when there is a token, at least one
      URL, a whole number of pairs and every count numeric; the request is
      then the parsed URLs, the parsed tokens unchanged (counts still
      strings) and the current operation. */
  lemma AcceptedIff(token: Option<string>, urlsText: string, tagsText: string, operation: int)
    ensures Evaluate(token, urlsText, tagsText, operation).Accepted? <==>
              HasToken(token) && ParseUrls(urlsText) != [] && IsPairShaped(ParseTags(tagsText))
              && CountsNumeric(ParseTags(tagsText))
    ensures Evaluate(token, urlsText, tagsText, operation).Accepted? ==>
              Evaluate(token, urlsText, tagsText, operation).request
                == BulkTagRequest(Bearer(token), ParseUrls(urlsText), ParseTags(tagsText), operation)
  {
  }

  /** A bad shape is reported as such, before any count is looked at. */
  lemma BadShapeRejected(token: Option<string>, urlsText: string, tagsText: string, operation: int)
    requires HasToken(token)
    requires ParseUrls(urlsText) == [] || !IsPairShaped(ParseTags(tagsText))
    ensures Evaluate(token, urlsText, tagsText, operation) == Rejected(BAD_SHAPE)
  {
  }

  /** A non-numeric count is reported by naming the tag just before it,
      and the first such pair is the one reported. */
  lemma BadCountNamesItsTag(token: Option<string>, urlsText: string, tagsText: string, operation: int, k: nat)
    requires HasToken(token) && ParseUrls(urlsText) != [] && IsPairShaped(ParseTags(tagsText))
    requires var tags := ParseTags(tagsText);
             && k < |tags| && k % 2 == 1 && !IsNumeric(tags[k])
             && forall j :: 0 <= j < k && j % 2 == 1 ==> IsNumeric(tags[j])
    ensures Evaluate(token, urlsText, tagsText, operation) == Rejected(CountNotNumber(ParseTags(tagsText)[k - 1]))
  {
    var tags := ParseTags(tagsText);
    var r := FirstBadCount(tags, 1);
    assert r.Some?;
  }

  /** The form's state: the two text fields, the operation switch and the
      status line. */
  class BulkTagForm {
    var urls: string
    var tags: string
    var operation: int
    var status: string

    /** The operation is only ever add or remove. */
    ghost predicate Valid()
      reads this
    {
      operation == ADD || operation == REMOVE
    }

    /** Empty fields, an empty status and "add" selected. */
    constructor ()
      ensures Valid()
      ensures urls == "" && tags == "" && operation == ADD && status == ""
    {
      urls, tags, operation, status := "", "", ADD, "";
    }

    method SetUrls(value: string)
      requires Valid()
      modifies this`urls
      ensures Valid() && urls == value
    {
      urls := value;
    }

    method SetTags(value: string)
      requires Valid()
      modifies this`tags
      ensures Valid() && tags == value
    {
      tags := value;
    }

    /** The "Add Tags" radio button. */
    method SelectAdd()
      modifies this`operation
      ensures Valid() && operation == ADD
    {
      operation := ADD;
    }

    /** The "Remove Tags" radio button. */
    method SelectRemove()
      modifies this`operation
      ensures Valid() && operation == REMOVE
    {
      operation := REMOVE;
    }

    /** The submit handler up to the request it sends: the status it sets
      and the request, as Evaluate decides them. */
    method HandleSubmit(accessToken: Option<string>) returns (request: Option<BulkTagRequest>)
      requires Valid()
      modifies this`status
      ensures Valid()
      ensures request == RequestOf(Evaluate(accessToken, urls, tags, operation))
      ensures status == StatusAfter(Evaluate(accessToken, urls, tags, operation), SENDING)
    {
      if !HasToken(accessToken) {
        status := LOGIN_REQUIRED;
        return None;
      }
      var urlArray := ParseUrls(urls);
      var tagArray := ParseTags(tags);
      if |urlArray| == 0 || |tagArray| < 2 || |tagArray| % 2 != 0 {
        status := BAD_SHAPE;
        return None;
      }
      var bad := CheckCounts(tagArray);
      if bad.Some? {
        status := CountNotNumber(tagArray[bad.value - 1]);
        return None;
      }
      status := SENDING;
      request := Some(BulkTagRequest("Bearer " + accessToken.value, urlArray, tagArray, operation));
    }
  }
}
