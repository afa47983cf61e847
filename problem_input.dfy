/**
 * `components/ProblemInput.tsx`: the text and image inputs, the clipboard search for a
 * pasted image, and `handleSubmit`, which cuts the image's data URL into the base64
 * payload and the MIME type handed to the analysis.
 */
module ProblemInput {
  import opened Wrappers
  import opened JsStrings
  import GeminiService

  /** `if (imagePreview)`: a preview counts when it is set and not the empty string. */
  predicate HasPreview(imagePreview: Option<string>) {
    imagePreview.Some? && imagePreview.value != ""
  }

  /**
   * `parts[1]` of `url.split(',')`: `undefined` exactly when the URL holds no comma, and
   * otherwise the text between the first comma and the next one (or the end).
   */
  function ImagePayload(url: string): (payload: Option<string>)
    ensures payload.None? <==> ',' !in url
    ensures payload.Some? ==> var rest := url[IndexOf(url, ',') + 1..];
                              payload.value == rest[..IndexOf(rest, ',')]
    ensures payload.Some? ==> ',' !in payload.value
  {
    SplitPiecesFree(url, ',');
    if ',' in url then
      SecondPiece(url, ',');
      Some(Split(url, ',')[1])
    else
      None
  }

  /** Helper of ImagePayload: the second piece of a split lies between the first two separators. */
  lemma SecondPiece(s: string, sep: char)
    requires sep in s
    ensures var rest := s[IndexOf(s, sep) + 1..];
            |Split(s, sep)| > 1 && Split(s, sep)[1] == rest[..IndexOf(rest, sep)]
  {
    var rest := s[IndexOf(s, sep) + 1..];
    SplitHead(s, sep);
    SplitHead(rest, sep);
    assert Split(s, sep)[1] == Split(s, sep)[1..][0];
  }

  /** A character is absent exactly when it is counted zero times. */
  lemma {:induction false} CountMisses(s: string, c: char)
    ensures Count(s, c) == 0 <==> c !in s
    decreases |s|
  {
    if s != [] {
      CountMisses(s[1..], c);
      assert s == [s[0]] + s[1..];
    }
  }

  /**
   * Where `.*?;` stops in `t`: the index of the first `;`, provided no line
   * terminator (which `.` does not match) comes before it.
   */
  function SemicolonRun(t: string): (k: Option<nat>)
    ensures k.Some? ==> k.value < |t| && t[k.value] == ';'
    ensures k.Some? ==> forall i :: 0 <= i < k.value ==> t[i] != ';' && !IsLineTerminator(t[i])
    ensures k.None? ==> forall j :: 0 <= j < |t| && t[j] == ';' ==> exists i :: 0 <= i < j && IsLineTerminator(t[i])
    decreases |t|
  {
    if t == [] then None
    else if t[0] == ';' then Some(0)
    else if IsLineTerminator(t[0]) then None
    else
      var rest := SemicolonRun(t[1..]);
      if rest.None? then
        assert forall j :: 1 <= j < |t| && t[j] == ';' ==> exists i :: 0 <= i < j && IsLineTerminator(t[i]) by {
          forall j | 1 <= j < |t| && t[j] == ';'
            ensures exists i :: 0 <= i < j && IsLineTerminator(t[i])
          {
            assert t[1..][j - 1] == ';';
            var i :| 0 <= i < j - 1 && IsLineTerminator(t[1..][i]);
            assert IsLineTerminator(t[i + 1]);
          }
        }
        None
      else
        Some(rest.value + 1)
  }

  /**
   * The capture group of `s.match(/:(.*?);/)`: the match starts at the leftmost `:` from
   * which `.*?;` can reach a `;`, and the group is the text up to the first such `;`.
   */
  function MimeMatch(s: string): (r: Option<string>)
    ensures r.Some? ==> ';' !in r.value && forall i :: 0 <= i < |r.value| ==> !IsLineTerminator(r.value[i])
    ensures r.Some? ==> Occurs(s, ":" + r.value + ";")
    ensures r.None? <==> forall i :: 0 <= i < |s| && s[i] == ':' ==> SemicolonRun(s[i + 1..]).None?
    ensures r.Some? ==> exists i :: LeftmostMatchAt(s, i, r.value)
    decreases |s|
  {
    if s == [] then None
    else if s[0] == ':' && SemicolonRun(s[1..]).Some? then
      var k := SemicolonRun(s[1..]).value;
      var m := s[1..][..k];
      assert s[..|":" + m + ";"|] == ":" + m + ";";
      assert LeftmostMatchAt(s, 0, m);
      Some(m)
    else
      var rest := MimeMatch(s[1..]);
      assert forall i :: 1 <= i < |s| ==> s[i + 1..] == s[1..][i..];
      if rest.Some? then
        assert |":" + rest.value + ";"| <= |s|;
        LeftmostMatchShifts(s, rest.value);
        rest
      else
        rest
  }

  /**
   * The regular expression matches at `i`, and `i` is the leftmost `:` from which `.*?;`
   * reaches a `;`; `m` is the capture, the text up to the first `;` after it.
   */
  predicate LeftmostMatchAt(s: string, i: nat, m: string) {
    && i < |s| && s[i] == ':' && SemicolonRun(s[i + 1..]).Some?
    && m == s[i + 1..][..SemicolonRun(s[i + 1..]).value]
    && forall j :: 0 <= j < i && s[j] == ':' ==> SemicolonRun(s[j + 1..]).None?
  }

  /** Helper of MimeMatch: a leftmost match after a first character that cannot start one. */
  lemma LeftmostMatchShifts(s: string, m: string)
    requires s != [] && !(s[0] == ':' && SemicolonRun(s[1..]).Some?)
    requires exists i :: LeftmostMatchAt(s[1..], i, m)
    ensures exists i :: LeftmostMatchAt(s, i, m)
  {
    var i: nat :| LeftmostMatchAt(s[1..], i, m);
    assert s[i + 2..] == s[1..][i + 1..];
    forall j | 0 <= j < i + 1 && s[j] == ':' ensures SemicolonRun(s[j + 1..]).None? {
      if j > 0 {
        assert s[j + 1..] == s[1..][j..];
        assert s[1..][j - 1] == ':';
      }
    }
    assert LeftmostMatchAt(s, i + 1, m);
  }

  /** `mimeMatch ? mimeMatch[1] : 'image/png'` on the part before the first comma. */
  function MimeOf(url: string): (mime: string)
    ensures MimeMatch(Split(url, ',')[0]).None? ==> mime == GeminiService.DefaultMimeType
    ensures MimeMatch(Split(url, ',')[0]).Some? ==> mime == MimeMatch(Split(url, ',')[0]).value
  {
    var mimeMatch := MimeMatch(Split(url, ',')[0]);
    if mimeMatch.Some? then mimeMatch.value else GeminiService.DefaultMimeType
  }

  /** Text with no `:` can be dropped from the front of a match. */
  lemma {:induction false} MimeMatchSkipsPrefix(pre: string, t: string)
    requires ':' !in pre
    ensures MimeMatch(pre + t) == MimeMatch(t)
    decreases |pre|
  {
    if pre != [] {
      assert (pre + t)[1..] == pre[1..] + t;
      MimeMatchSkipsPrefix(pre[1..], t);
    } else {
      assert pre + t == t;
    }
  }

  /** `.*?;` stops at the `;` that ends a run free of `;` and line terminators. */
  lemma {:induction false} SemicolonRunAfter(m: string, t: string)
    requires ';' !in m && forall i :: 0 <= i < |m| ==> !IsLineTerminator(m[i])
    ensures SemicolonRun(m + ";" + t) == Some(|m|)
    decreases |m|
  {
    if m == [] {
      assert m + ";" + t == ";" + t;
    } else {
      assert (m + ";" + t)[1..] == m[1..] + ";" + t;
      SemicolonRunAfter(m[1..], t);
    }
  }

  /**
   * `FileReader.readAsDataURL` gives `data:<mime>;base64,<payload>`: the submit recovers
   * exactly that MIME type and that payload.
   */
  lemma DataUrlRoundTrip(mime: string, payload: string)
    requires ',' !in mime && ';' !in mime && forall i :: 0 <= i < |mime| ==> !IsLineTerminator(mime[i])
    requires ',' !in payload
    ensures ImagePayload("data:" + mime + ";base64," + payload) == Some(payload)
    ensures MimeOf("data:" + mime + ";base64," + payload) == mime
  {
    var head := "data:" + mime + ";base64";
    var url := "data:" + mime + ";base64," + payload;
    assert ',' !in head;
    assert url == head + [','] + payload;
    SplitAfterHead(head, payload);
    assert head == "data" + (":" + (mime + ";" + "base64"));
    MimeOfHead(mime);
  }

  /** Helper of DataUrlRoundTrip: a comma-free head, a comma, a comma-free payload. */
  lemma SplitAfterHead(head: string, payload: string)
    requires ',' !in head && ',' !in payload
    ensures Split(head + [','] + payload, ',') == [head, payload]
    ensures ImagePayload(head + [','] + payload) == Some(payload)
  {
    SplitAtFirst(head, payload, ',');
    SplitWithoutSeparator(payload, ',');
  }

  /** Helper of DataUrlRoundTrip: the MIME type matched in `data:<mime>;base64`. */
  lemma MimeOfHead(mime: string)
    requires ';' !in mime && forall i :: 0 <= i < |mime| ==> !IsLineTerminator(mime[i])
    ensures MimeMatch("data" + (":" + (mime + ";" + "base64"))) == Some(mime)
  {
    var t := mime + ";" + "base64";
    MimeMatchSkipsPrefix("data", ":" + t);
    SemicolonRunAfter(mime, "base64");
    MimeMatchAtColon(t);
    assert t[..|mime|] == mime;
  }

  /** Helper: a `:` right before a run that reaches a `;` is where the match starts. */
  lemma MimeMatchAtColon(t: string)
    requires SemicolonRun(t).Some?
    ensures MimeMatch(":" + t) == Some(t[..SemicolonRun(t).value])
  {
    var s := ":" + t;
    assert s[0] == ':' && s[1..] == t;
  }

  /** The payload of a non-empty data URL makes the analysis go to the vision model, with its MIME type. */
  lemma DataUrlSelectsVisionModel(mime: string, payload: string)
    requires ',' !in mime && ';' !in mime && forall i :: 0 <= i < |mime| ==> !IsLineTerminator(mime[i])
    requires ',' !in payload && payload != ""
    ensures GeminiService.ModelFor(ImagePayload("data:" + mime + ";base64," + payload)) == GeminiService.VisionModel
    ensures Some(MimeOf("data:" + mime + ";base64," + payload)).GetOr(GeminiService.DefaultMimeType) == mime
  {
    DataUrlRoundTrip(mime, payload);
  }

  /** A preview without a comma sends no image, so the analysis uses the text model. */
  lemma CommaFreePreviewSendsNoImage(url: string)
    requires ',' !in url
    ensures GeminiService.ModelFor(ImagePayload(url)) == GeminiService.ReasoningModel
  {
  }

  /** What `onAnalyze` receives: the text, and the payload and MIME type when there is a preview. */
  datatype AnalyzeCall = AnalyzeCall(text: string, imageBase64: Option<string>, mimeType: Option<string>)

  /** The submit button is disabled while analysing and while both inputs are empty. */
  predicate SubmitDisabled(isAnalyzing: bool, text: string, imagePreview: Option<string>) {
    isAnalyzing || (text == "" && !HasPreview(imagePreview))
  }

  /** One entry of `clipboardData.items`: its MIME type and what `getAsFile()` gives. */
  datatype ClipboardItem = ClipboardItem(itemType: string, file: Option<nat>)

  /** An item the paste handler takes: its type mentions `image` and it yields a file. */
  predicate Takes(item: ClipboardItem) {
    Occurs(item.itemType, "image") && item.file.Some?
  }

  /**
   * `handleGlobalPaste`: the first item whose type mentions `image` and whose file is not
   * null is read (and the default paste prevented); image items without a file are passed
   * over, and a missing item list does nothing.
   */
  method FirstPastedImage(items: Option<seq<ClipboardItem>>) returns (index: Option<nat>, file: Option<nat>)
    ensures items.None? ==> index.None?
    ensures index.Some? ==> items.Some? && index.value < |items.value| && Takes(items.value[index.value])
    ensures index.Some? ==> forall j :: 0 <= j < index.value ==> !Takes(items.value[j])
    ensures index.None? && items.Some? ==> forall j :: 0 <= j < |items.value| ==> !Takes(items.value[j])
    ensures file.Some? <==> index.Some?
    ensures index.Some? ==> file == items.value[index.value].file
  {
    if items.None? {
      return None, None;
    }
    var list := items.value;
    var i := 0;
    while i < |list|
      invariant 0 <= i <= |list|
      invariant forall j :: 0 <= j < i ==> !Takes(list[j])
    {
      if Occurs(list[i].itemType, "image") {
        var f := list[i].file;
        if f.Some? {
          return Some(i), f;
        }
      }
      i := i + 1;
    }
    return None, None;
  }

  /** The component's two `useState` slots. */
  class InputPanel {
    var text: string
    var imagePreview: Option<string>

    /** `useState('')` and `useState(null)`. */
    constructor()
      ensures text == "" && imagePreview == None
    {
      text := "";
      imagePreview := None;
    }

    /** The text area's `onChange`. */
    method EditText(value: string)
      modifies this
      ensures text == value && imagePreview == old(imagePreview)
    {
      text := value;
    }

    /** The `onloadend` of `processFile`: the data URL read from an uploaded or pasted file. */
    method LoadPreview(dataUrl: string)
      modifies this
      ensures imagePreview == Some(dataUrl) && text == old(text)
    {
      imagePreview := Some(dataUrl);
    }

    /** The remove-image button: `setImagePreview(null)`. */
    method RemoveImage()
      modifies this
      ensures imagePreview == None && text == old(text)
    {
      imagePreview := None;
    }

    /**
     * `handleSubmit`: nothing when both inputs are empty; otherwise the text, and for a
     * preview the part after the first comma and the MIME type of the part before it.
     */
    method Submit() returns (call: Option<AnalyzeCall>)
      ensures call.None? <==> SubmitDisabled(false, text, imagePreview)
      ensures call.Some? ==> call.value.text == text
      ensures call.Some? && !HasPreview(imagePreview) ==> call.value.imageBase64.None? && call.value.mimeType.None?
      ensures call.Some? && HasPreview(imagePreview) ==>
                call.value.imageBase64 == ImagePayload(imagePreview.value)
                && call.value.mimeType == Some(MimeOf(imagePreview.value))
    {
      if text == "" && !HasPreview(imagePreview) {
        return None;
      }
      var base64Data: Option<string> := None;
      var mimeType: Option<string> := None;
      if HasPreview(imagePreview) {
        var parts := Split(imagePreview.value, ',');
        SplitLength(imagePreview.value, ',');
        CountMisses(imagePreview.value, ',');
        base64Data := if |parts| > 1 then Some(parts[1]) else None;
        var mimeMatch := MimeMatch(parts[0]);
        mimeType := Some(if mimeMatch.Some? then mimeMatch.value else GeminiService.DefaultMimeType);
      }
      return Some(AnalyzeCall(text, base64Data, mimeType));
    }
  }
}
