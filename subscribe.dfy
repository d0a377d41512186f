/** The species subscription form: one text field of comma-separated bird
    species. On submit it rejects a blank field and any digit, cleans the
    tags (trimmed, lower-cased, empties dropped), rejects an input that
    cleans to nothing, and otherwise sends `{email, tags}`. */
module Subscribe {
  import opened JsString
  import opened Requests

  const BLANK := "Please enter at least one tag."
  const HAS_NUMBERS := "Tags must not contain numbers."
  const NO_VALID_TAGS := "Please enter valid tags."
  const SUBSCRIBING := "Subscribing..."

  /** The JSON body `{email, tags}` and its bearer header. When the profile
      has no e-mail, `JSON.stringify` leaves the key out: `email` is None. */
  datatype SubscribeRequest = SubscribeRequest(authorization: string, email: Option<string>, tags: seq<string>)

  /** `tag.trim().toLowerCase()`. */
  function CleanTag(t: string): string {
    ToLower(Trim(t))
  }

  /** `input.split(',').map(tag => tag.trim().toLowerCase()).filter(Boolean)`. */
  function CleanTags(input: string): seq<string> {
    Tokens(input, ',', CleanTag)
  }

  /** What the subscribe handler decides, given the field, the user's ID
      token and the e-mail of the signed-in profile. */
  function HandleSubscribe(input: string, idToken: Option<string>, email: Option<string>): Outcome<SubscribeRequest> {
    if Trim(input) == [] then Rejected(BLANK)
    else if HasDigit(input) then Rejected(HAS_NUMBERS)
    else
      var tags := CleanTags(input);
      if |tags| == 0 then Rejected(NO_VALID_TAGS)
      else Accepted(SubscribeRequest(Bearer(idToken), email, tags))
  }

  /** The status line once the handler has decided. */
  function StatusOf(input: string, idToken: Option<string>, email: Option<string>): string {
    StatusAfter(HandleSubscribe(input, idToken, email), SUBSCRIBING)
  }

  /** A cleaned tag is empty exactly when its piece is all whitespace. */
  lemma CleanTagEmptyIff(p: string)
    ensures CleanTag(p) == [] <==> AllWhitespace(p)
  {
    TrimEmptyIff(p);
  }

  /** A comma or a digit in a cleaned tag was already in the raw tag:
      lower-casing neither makes nor removes one. */
  lemma CleanTagChars(p: string, c: char)
    requires c in CleanTag(p) && (c == ',' || IsDigit(c))
    ensures c in p
  {
    var t := Trim(p);
    var lowered := ToLower(t);
    var j :| 0 <= j < |lowered| && lowered[j] == c;
    assert LowerChar(t[j]) == c;
    assert t[j] == c;
    assert c in t;
    TrimChars(p, c);
  }

  /** A species typed with a capital lower-cases to its small-letter name. */
  lemma LowerCaseExample()
    ensures ToLower("Crow") == "crow"
  {
    assert LowerChar('C') == 'c';
  }

  /** Every cleaned tag is non-empty, trimmed, lower-case and comma-free,
      and it holds a digit only if the input does. */
  lemma CleanTagsClean(input: string)
    ensures forall t :: t in CleanTags(input) ==>
              t != [] && IsTrimmed(t) && IsLowerCase(t) && ',' !in t && (HasDigit(t) ==> HasDigit(input))
  {
    forall t | t in CleanTags(input)
      ensures t != [] && IsTrimmed(t) && IsLowerCase(t) && ',' !in t && (HasDigit(t) ==> HasDigit(input))
    {
      TokenOrigin(input, ',', CleanTag, t);
      var ps := Split(input, ',');
      var k :| 0 <= k < |ps| && CleanTag(ps[k]) == t;
      ToLowerKeeps(Trim(ps[k]));
      ToLowerIsLowerCase(Trim(ps[k]));
      if ',' in t {
        CleanTagChars(ps[k], ',');
      }
      if HasDigit(t) {
        var j :| 0 <= j < |t| && IsDigit(t[j]);
        CleanTagChars(ps[k], t[j]);
        SplitPieceChars(input, ',', k, t[j]);
        var i :| 0 <= i < |input| && input[i] == t[j];
        assert IsDigit(input[i]);
      }
    }
  }

  /** The input cleans to no tag exactly when it holds nothing but commas
      and whitespace. */
  lemma CleanTagsEmptyIff(input: string)
    ensures CleanTags(input) == [] <==> !HasContent(input, ',')
  {
    forall p ensures CleanTag(p) == [] <==> AllWhitespace(p) {
      CleanTagEmptyIff(p);
    }
    TokensEmptyIff(input, ',', CleanTag);
  }

  /** Cleaned tags keep input order: the tags of `a,b` are those of `a`
      followed by those of `b`, and a comma-free piece gives its cleaned
      text unless that is empty. */
  lemma CleanTagsInOrder(a: string, b: string, piece: string)
    requires ',' !in piece
    ensures CleanTags(a + "," + b) == CleanTags(a) + CleanTags(b)
    ensures CleanTags(piece) == if CleanTag(piece) == [] then [] else [CleanTag(piece)]
  {
    TokensAppend(a, b, ',', CleanTag);
    TokensOfPiece(piece, ',', CleanTag);
  }

  /** A blank field is refused with its own message. */
  lemma BlankRejected(input: string, idToken: Option<string>, email: Option<string>)
    requires AllWhitespace(input)
    ensures HandleSubscribe(input, idToken, email) == Rejected(BLANK)
  {
    TrimEmptyIff(input);
  }

  /** A non-blank field with a digit anywhere is refused before it is split. */
  lemma DigitRejected(input: string, idToken: Option<string>, email: Option<string>, i: nat)
    requires !AllWhitespace(input) && i < |input| && IsDigit(input[i])
    ensures HandleSubscribe(input, idToken, email) == Rejected(HAS_NUMBERS)
  {
    TrimEmptyIff(input);
  }

  /** A field that is not blank, has no digit, and holds nothing but commas
      and whitespace is refused as having no valid tags. */
  lemma OnlySeparatorsRejected(input: string, idToken: Option<string>, email: Option<string>)
    requires !AllWhitespace(input) && !HasDigit(input) && !HasContent(input, ',')
    ensures HandleSubscribe(input, idToken, email) == Rejected(NO_VALID_TAGS)
  {
    TrimEmptyIff(input);
    CleanTagsEmptyIff(input);
  }

  /** `", ,"` is such a field. */
  lemma CommasOnlyExample(idToken: Option<string>, email: Option<string>)
    ensures HandleSubscribe(", ,", idToken, email) == Rejected(NO_VALID_TAGS)
  {
    assert ", ,"[0] == ',';
    assert !AllWhitespace(", ,");
    assert !HasDigit(", ,");
    OnlySeparatorsRejected(", ,", idToken, email);
  }

  /** The request is sent exactly when the field has no digit and some
      character that is neither a comma nor whitespace; it then carries the
      e-mail and the cleaned tags and nothing else. */
  lemma AcceptedIff(input: string, idToken: Option<string>, email: Option<string>)
    ensures HandleSubscribe(input, idToken, email).Accepted? <==> !HasDigit(input) && HasContent(input, ',')
    ensures HandleSubscribe(input, idToken, email).Accepted? ==>
              HandleSubscribe(input, idToken, email).request
                == SubscribeRequest(Bearer(idToken), email, CleanTags(input))
  {
    TrimEmptyIff(input);
    CleanTagsEmptyIff(input);
    if HasContent(input, ',') {
      var i :| 0 <= i < |input| && input[i] != ',' && !IsWhitespace(input[i]);
      assert !AllWhitespace(input);
    }
  }
}
