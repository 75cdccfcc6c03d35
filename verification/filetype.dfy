/** The upload's file filter (`checkFileType`): a file is an acceptable image when
    its lower-cased extension and the MIME type it is handed each match the unanchored
    pattern `jpeg|jpg|png|gif`. */
module FileType {
  import opened Text

  /** The alternatives of the pattern, in the order the pattern lists them. */
  const ImageTokens: seq<string> := ["jpeg", "jpg", "png", "gif"]

  /** The error value the filter hands to the parser on rejection. */
  const ImagesOnlyMessage: string := "Error: Images Only!"

  /** What the filter tells the parser: keep the file, or abort with an error. */
  datatype Verdict = Accept | Reject(message: string)

  /** Reference meaning of the pattern test: some alternative occurs somewhere. */
  ghost predicate MatchesImagePattern(s: string) {
    exists k :: 0 <= k < |ImageTokens| && Occurs(s, ImageTokens[k])
  }

  /** Executable pattern test, one substring search per alternative. */
  predicate HasImageToken(s: string) {
    Contains(s, "jpeg") || Contains(s, "jpg") || Contains(s, "png") || Contains(s, "gif")
  }

  lemma HasImageTokenIffPattern(s: string)
    ensures HasImageToken(s) <==> MatchesImagePattern(s)
  {
    ContainsIffOccurs(s, "jpeg");
    ContainsIffOccurs(s, "jpg");
    ContainsIffOccurs(s, "png");
    ContainsIffOccurs(s, "gif");
    if MatchesImagePattern(s) {
      var k :| 0 <= k < |ImageTokens| && Occurs(s, ImageTokens[k]);
      assert k == 0 || k == 1 || k == 2 || k == 3;
    }
    if HasImageToken(s) {
      if Contains(s, "jpeg") {
        assert Occurs(s, ImageTokens[0]);
      } else if Contains(s, "jpg") {
        assert Occurs(s, ImageTokens[1]);
      } else if Contains(s, "png") {
        assert Occurs(s, ImageTokens[2]);
      } else {
        assert Occurs(s, ImageTokens[3]);
      }
    }
  }

  /** A string in which no two adjacent characters spell the first two letters
      of any alternative matches none of them. */
  lemma NoLeadingPairNoMatch(s: string)
    requires forall i :: 0 <= i < |s| - 1 ==> !(s[i] == 'j' && s[i + 1] == 'p')
    requires forall i :: 0 <= i < |s| - 1 ==> !(s[i] == 'p' && s[i + 1] == 'n')
    requires forall i :: 0 <= i < |s| - 1 ==> !(s[i] == 'g' && s[i + 1] == 'i')
    ensures !MatchesImagePattern(s)
  {
    forall k, i | 0 <= k < |ImageTokens| && 0 <= i <= |s| - |ImageTokens[k]|
      ensures !(ImageTokens[k] <= s[i..])
    {
      var t := ImageTokens[k];
      assert s[i..][0] == s[i] && s[i..][1] == s[i + 1];
    }
  }

  /** The filter accepts exactly when BOTH signals match the pattern, the
      extension after lower-casing and the MIME string exactly as received; every rejection
      carries the one fixed message. */
  function CheckFileType(extension: string, mimetype: string): (v: Verdict)
    ensures v.Accept? <==> MatchesImagePattern(ToLower(extension)) && MatchesImagePattern(mimetype)
    ensures v.Reject? ==> v.message == ImagesOnlyMessage
  {
    HasImageTokenIffPattern(ToLower(extension));
    HasImageTokenIffPattern(mimetype);
    if HasImageToken(ToLower(extension)) && HasImageToken(mimetype) then Accept
    else Reject(ImagesOnlyMessage)
  }

  /** AND, not OR: a MIME type that matches no alternative sinks the file
      whatever its extension, and an extension that matches none sinks it
      whatever its MIME type. */
  lemma BothSignalsRequired(extension: string, mimetype: string)
    ensures !MatchesImagePattern(mimetype) ==> CheckFileType(extension, mimetype) == Reject(ImagesOnlyMessage)
    ensures !MatchesImagePattern(ToLower(extension)) ==> CheckFileType(extension, mimetype) == Reject(ImagesOnlyMessage)
  {
  }

  /** A mismatched pair: a `.png` file with MIME type `text/plain` is rejected. */
  lemma PngAsTextPlainRejected()
    ensures CheckFileType(".png", "text/plain") == Reject(ImagesOnlyMessage)
  {
    NoLeadingPairNoMatch("text/plain");
  }

  /** The other mismatched pair: a `.txt` file with MIME type `image/png` is
      rejected. */
  lemma TxtAsImagePngRejected()
    ensures CheckFileType(".txt", "image/png") == Reject(ImagesOnlyMessage)
  {
    assert ToLower(".txt") == ".txt";
    NoLeadingPairNoMatch(".txt");
  }

  /** The extension test ignores case: an extension and its upper-cased
      spelling get the same verdict. */
  lemma ExtensionCaseInsensitive(extension: string, mimetype: string)
    ensures CheckFileType(ToUpper(extension), mimetype) == CheckFileType(extension, mimetype)
  {
    LowerOfUpper(extension);
  }

  /** The MIME test does not ignore case: once upper-cased, no MIME string can
      match any alternative, so the file is rejected whatever its extension. */
  lemma MimeCaseSensitive(extension: string, mimetype: string)
    ensures CheckFileType(extension, ToUpper(mimetype)) == Reject(ImagesOnlyMessage)
  {
    var upper := ToUpper(mimetype);
    forall k | 0 <= k < |ImageTokens|
      ensures !Occurs(upper, ImageTokens[k])
    {
      NoLowerNoOccurrence(upper, ImageTokens[k]);
    }
  }

  /** Matching is by substring: any text around an alternative still passes. */
  lemma SubstringSuffices(pre: string, k: nat, post: string)
    requires k < |ImageTokens|
    ensures MatchesImagePattern(pre + ImageTokens[k] + post)
  {
    OccursInContext(pre, ImageTokens[k], post);
  }

  /** The substring rule at work: `.jpgx` with MIME type `image/pngish` passes. */
  lemma PaddedTokensAccepted()
    ensures CheckFileType(".jpgx", "image/pngish") == Accept
  {
    SubstringSuffices(".", 1, "x");
    assert ToLower(".jpgx") == "." + ImageTokens[1] + "x";
    SubstringSuffices("image/", 2, "ish");
    assert "image/pngish" == "image/" + ImageTokens[2] + "ish";
  }

  /** Case folding at work on the extension: `.PNG` with MIME type `image/png`
      passes. */
  lemma UpperExtensionAccepted()
    ensures CheckFileType(".PNG", "image/png") == Accept
  {
    SubstringSuffices(".", 2, "");
    assert ToLower(".PNG") == "." + ImageTokens[2] + "";
    SubstringSuffices("image/", 2, "");
    assert "image/png" == "image/" + ImageTokens[2] + "";
  }

  /** No case folding on the MIME string the filter receives: `.png` with MIME type `IMAGE/PNG` is
      rejected. */
  lemma UpperMimeRejected()
    ensures CheckFileType(".png", "IMAGE/PNG") == Reject(ImagesOnlyMessage)
  {
    assert ToUpper("image/png") == "IMAGE/PNG";
    MimeCaseSensitive(".png", "image/png");
  }
}
