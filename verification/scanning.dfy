/**
 The scan pipeline (components/Scanning.tsx) around the text localiser: the
 cleaning of the inference service's reply, the defaults applied to the parsed
 object, the image each dish is given, the dish ids, the menu flag, the error
 classification and the progress bar.

 The photograph's base64 payload, the reply text, `JSON.parse`, the OCR result
 and `Date.now()` come from outside the component; they are inputs here.
 */
module Scanning {
  import opened Types
  import opened Text
  import opened Matcher
  import Uri

  // ---------------------------------------------------------------------
  // Cleaning the reply text
  // ---------------------------------------------------------------------

  /** A Markdown code fence. */
  const Fence: string := "```"

  /** `replace(/^<p>\s?/, '')`: the prefix `p` and at most one whitespace
      character after it are removed, when the text starts with `p`. */
  function StripLeading(s: string, p: string): (r: string)
    ensures |r| <= |s| && r == s[|s| - |r|..]
    ensures !StartsWith(s, p) ==> r == s
  {
    if StartsWith(s, p) then
      var t := s[|p|..];
      if |t| > 0 && IsSpace(t[0]) then t[1..] else t
    else s
  }

  /** `replace(/```$/, '')`: without the `m` flag `$` is the very end of the
      text, so only a fence that ends the text is removed. */
  function StripTrailingFence(s: string): (r: string)
    ensures |r| <= |s| && r == s[..|r|]
    ensures !EndsWith(s, Fence) ==> r == s
  {
    if EndsWith(s, Fence) then s[..|s| - |Fence|] else s
  }

  /** `geminiResponse.text || "{}"`: a missing or empty reply reads as an empty object. */
  function ReplyText(text: Option<string>): (r: string)
    ensures |r| > 0
    ensures text.Some? && text.value != "" ==> r == text.value
  {
    if text.None? || text.value == "" then "{}" else text.value
  }

  /** The text handed to `JSON.parse`. Fences are stripped only when the reply
      starts with one; the result is always a contiguous piece of the reply. */
  function CleanReply(text: Option<string>): (r: string)
    ensures !StartsWith(ReplyText(text), Fence) ==> r == ReplyText(text)
    ensures Contains(ReplyText(text), r)
  {
    var t := ReplyText(text);
    assert OccursAt(t, t, 0);
    if StartsWith(t, Fence) then
      var a := StripLeading(t, Fence + "json");
      var b := StripLeading(a, Fence);
      var c := StripTrailingFence(b);
      assert OccursAt(t, c, |t| - |b|) by {
        assert b == t[|t| - |b|..];
        assert c == b[..|c|];
      }
      c
    else t
  }

  /** A reply that is nothing but a fence is cleaned down to the empty text,
      which is what reaches the parser (and `JSON.parse("")` throws). */
  lemma BareFenceIsCleanedAway(text: string)
    requires text == Fence
    ensures ReplyText(Some(text)) == text
    ensures CleanReply(Some(text)) == ""
  {
    assert StartsWith(text, Fence);
    assert !StartsWith(text, Fence + "json");
    assert StripLeading(text, Fence) == "";
  }

  /** A text that differs from `p` within `p`'s length does not start with it. */
  lemma StripLeadingMismatch(s: string, p: string, k: int)
    requires 0 <= k < |p| && k < |s| && s[k] != p[k]
    ensures StripLeading(s, p) == s
  {
    if |p| <= |s| {
      assert s[..|p|][k] == s[k];
    }
  }

  /** A closing fence at the very end is removed, and nothing else. */
  lemma TrailingFenceRoundTrip(body: string)
    ensures StripTrailingFence(body + Fence) == body
  {
    assert (body + Fence)[|body|..] == Fence;
  }

  /** The prefix and the one whitespace character after it are stripped. */
  lemma StripLeadingSpaced(p: string, c: char, rest: string)
    requires IsSpace(c)
    ensures StripLeading(p + [c] + rest, p) == rest
  {
    var t := p + [c] + rest;
    assert t[..|p|] == p;
    assert t[|p|..] == [c] + rest;
  }

  /** A text that is exactly the prefix strips to nothing. */
  lemma StripLeadingWhole(p: string)
    ensures StripLeading(p, p) == ""
  {
    assert p[..|p|] == p;
  }

  /** How a reply that opens with a fence is cleaned. */
  lemma CleanFenced(t: string)
    requires StartsWith(t, Fence)
    ensures CleanReply(Some(t)) == StripTrailingFence(StripLeading(StripLeading(t, Fence + "json"), Fence))
  {
  }

  /** A fence followed by whitespace does not open a `json` fence. */
  lemma SpaceAfterFence(c: char, rest: string)
    requires IsSpace(c)
    ensures StartsWith(Fence + [c] + rest, Fence)
    ensures StripLeading(Fence + [c] + rest, Fence + "json") == Fence + [c] + rest
  {
    var t := Fence + [c] + rest;
    assert t[..|Fence|] == Fence;
    StripLeadingMismatch(t, Fence + "json", |Fence|);
  }

  /** A body wrapped as "```\n...```" (any single whitespace character after
      the fence) comes back unwrapped. */
  lemma PlainFenceRoundTrip(c: char, body: string)
    requires IsSpace(c)
    requires |body| == 0 || body[0] != '`'
    ensures CleanReply(Some(Fence + [c] + body + Fence)) == body
  {
    var rest := body + Fence;
    var t := Fence + [c] + rest;
    assert t == Fence + [c] + body + Fence;
    SpaceAfterFence(c, rest);
    CleanFenced(t);
    StripLeadingSpaced(Fence, c, rest);
    TrailingFenceRoundTrip(body);
  }

  /** A body wrapped as "```json\n...```" comes back unwrapped. */
  lemma JsonFenceRoundTrip(c: char, body: string)
    requires IsSpace(c)
    requires |body| == 0 || body[0] != '`'
    ensures CleanReply(Some(Fence + "json" + [c] + body + Fence)) == body
  {
    var json := Fence + "json";
    var t := json + [c] + body + Fence;
    assert t == json + [c] + (body + Fence);
    assert t == Fence + ("json" + [c] + body + Fence);
    assert t[..|Fence|] == Fence;
    CleanFenced(t);
    StripLeadingSpaced(json, c, body + Fence);
    var a := body + Fence;
    if |body| > 0 {
      StripLeadingMismatch(a, Fence, 0);
    } else {
      assert a == Fence;
      StripLeadingWhole(Fence);
    }
    TrailingFenceRoundTrip(body);
  }

  /** A JSON body wrapped as "```json\n...```" or "```\n...```" comes back
      unwrapped. */
  lemma FencedReplyRoundTrip(tag: string, c: char, body: string)
    requires tag == "json" || tag == ""
    requires IsSpace(c)
    requires |body| == 0 || body[0] != '`'
    ensures CleanReply(Some(Fence + tag + [c] + body + Fence)) == body
  {
    if tag == "" {
      assert Fence + tag == Fence;
      PlainFenceRoundTrip(c, body);
    } else {
      JsonFenceRoundTrip(c, body);
    }
  }

  /** A closing fence followed by a newline is not at the very end of the
      text, so it survives cleaning and reaches `JSON.parse`. */
  lemma TrailingNewlineKeepsClosingFence(body: string, nl: char)
    requires IsSpace(nl)
    requires |body| > 0 && body[0] != '`' && body[0] != 'j'
    ensures EndsWith(CleanReply(Some(Fence + body + Fence + [nl])), Fence + [nl])
  {
    var u := Fence + [nl];
    var t := Fence + body + u;
    assert t == Fence + body + Fence + [nl];
    assert t[..3] == Fence;
    assert t[3] == body[0];
    StripLeadingMismatch(t, Fence + "json", 3);
    var b := StripLeading(t, Fence);
    assert |b| >= |t| - 4 >= |u|;
    assert b[|b| - |u|..] == t[|t| - |u|..] == u;
    assert b[|b| - 1] == nl;
    assert StripTrailingFence(b) == b;
  }

  // ---------------------------------------------------------------------
  // The parsed reply
  // ---------------------------------------------------------------------

  /** The object `JSON.parse` returns: both fields may be missing. */
  datatype ParsedReply = ParsedReply(dishes: Option<seq<InferredDish>>, isMenu: Option<bool>)

  /** `parsedData.dishes || []`. */
  function DishesOf(p: ParsedReply): seq<InferredDish> {
    p.dishes.GetOr([])
  }

  /** `parsedData.isMenu || false`. */
  function MenuOf(p: ParsedReply): bool {
    Flag(p.isMenu)
  }

  // ---------------------------------------------------------------------
  // Images
  // ---------------------------------------------------------------------

  const ThumbnailPrefix: string := "https://tse2.mm.bing.net/th?q="
  const ThumbnailSuffix: string := "&w=400&h=400&c=7&rs=1&p=0"
  const DataUrlPrefix: string := "data:image/jpeg;base64,"

  /** `dish.englishName || dish.name`: an empty English name falls back too. */
  function SearchLabel(d: InferredDish): (r: string)
    ensures d.englishName.Some? && d.englishName.value != "" ==> r == d.englishName.value
    ensures d.englishName.None? || d.englishName.value == "" ==> r == d.name
  {
    if d.englishName.Some? && d.englishName.value != "" then d.englishName.value else d.name
  }

  /** The image search query: original name, search label, "food dish", trimmed. */
  function SearchQuery(d: InferredDish): string {
    Trim(d.originalName + " " + SearchLabel(d) + " food dish")
  }

  /** The query always ends with the words "food dish", and is exactly the
      untrimmed text when the original name starts with non-whitespace. */
  lemma SearchQueryShape(d: InferredDish, w: string)
    requires w == "food dish"
    ensures EndsWith(SearchQuery(d), w)
    ensures |d.originalName| > 0 && !IsSpace(d.originalName[0]) ==>
      SearchQuery(d) == d.originalName + " " + SearchLabel(d) + " " + w
  {
    var s := d.originalName + " " + SearchLabel(d) + " " + w;
    assert s == d.originalName + " " + SearchLabel(d) + " food dish";
    assert s[|s| - |w|..] == w;
    TrimKeepsSuffix(s, w);
    if |d.originalName| > 0 && !IsSpace(d.originalName[0]) {
      assert s[0] == d.originalName[0];
      TrimClean(s);
    }
  }

  /** The thumbnail address for a query. The query is percent-encoded, so it
      can be read back from the address and can never add or override a
      parameter: the size parameters always come from the fixed suffix. */
  function ThumbnailUrl(q: string): (r: string)
    ensures StartsWith(r, ThumbnailPrefix) && EndsWith(r, ThumbnailSuffix)
    ensures |r| >= |ThumbnailPrefix| + |ThumbnailSuffix|
    ensures Uri.Decode(r[|ThumbnailPrefix|..|r| - |ThumbnailSuffix|]) == Some(q)
    ensures forall i :: |ThumbnailPrefix| <= i < |r| - |ThumbnailSuffix| ==> r[i] != '&' && r[i] != '#'
  {
    EncodedBetween(ThumbnailPrefix, q, ThumbnailSuffix);
    ThumbnailPrefix + Uri.Encode(q) + ThumbnailSuffix
  }

  /** Any text with an encoded query between `p` and `s` gives the query back
      from between them, and that stretch holds no `&` or `#`. */
  lemma EncodedBetween(p: string, q: string, s: string)
    ensures var r := p + Uri.Encode(q) + s;
      && StartsWith(r, p) && EndsWith(r, s) && |r| >= |p| + |s|
      && Uri.Decode(r[|p|..|r| - |s|]) == Some(q)
      && forall i :: |p| <= i < |r| - |s| ==> r[i] != '&' && r[i] != '#'
  {
    var e := Uri.Encode(q);
    Uri.DecodeEncode(q);
    EncodeAvoidsDelimiters(q);
    Framed(p, e, s);
    MiddleChars(p, e, s);
  }

  /** Percent-encoding never produces `&` or `#`. */
  lemma EncodeAvoidsDelimiters(q: string)
    ensures forall j :: 0 <= j < |Uri.Encode(q)| ==> Uri.Encode(q)[j] != '&' && Uri.Encode(q)[j] != '#'
  {
  }

  /** The characters between `p` and `s` are those of `e`. */
  lemma MiddleChars(p: string, e: string, s: string)
    ensures forall i :: |p| <= i < |p| + |e| ==> (p + e + s)[i] == e[i - |p|]
  {
  }

  /** The photograph itself, re-wrapped as a JPEG data URL. */
  function DataUrl(payload: string): (r: string)
    ensures StartsWith(r, DataUrlPrefix) && r[|DataUrlPrefix|..] == payload
  {
    DataUrlPrefix + payload
  }

  /** Menus (by the model's verdict or the user's choice) get a searched
      thumbnail; a dish photograph keeps the photograph. */
  function ImageFor(d: InferredDish, menuLike: bool, payload: string): (r: string)
    ensures menuLike ==> r == ThumbnailUrl(SearchQuery(d))
    ensures !menuLike ==> r == DataUrl(payload)
  {
    if menuLike then ThumbnailUrl(SearchQuery(d)) else DataUrl(payload)
  }

  /** The text before the first `c`, or all of `s` when there is none. */
  function UpTo(s: string, c: char): (r: string)
    ensures |r| <= |s| && r == s[..|r|]
    ensures c !in r
    ensures |r| < |s| ==> s[|r|] == c
  {
    if |s| == 0 || s[0] == c then "" else [s[0]] + UpTo(s[1..], c)
  }

  /** `s.split(',')[1]`: the second comma-separated field; `None` (the
      source's `undefined`) when there is no comma. */
  function PayloadOf(s: string): (r: Option<string>)
    ensures r.None? <==> ',' !in s
    ensures r.Some? ==> ',' !in r.value && Contains(s, r.value)
  {
    var head := UpTo(s, ',');
    if |head| == |s| then
      assert head == s;
      None
    else
      var rest := s[|head| + 1..];
      var f := UpTo(rest, ',');
      assert OccursAt(s, f, |head| + 1);
      Some(f)
  }

  /** `UpTo` stops exactly at the first separator. */
  lemma {:induction false} UpToSeparator(a: string, c: char, b: string)
    requires c !in a
    ensures UpTo(a + [c] + b, c) == a
  {
    if |a| > 0 {
      assert (a + [c] + b)[1..] == a[1..] + [c] + b;
      UpToSeparator(a[1..], c, b);
    }
  }

  /** `UpTo` of a text without the separator is the whole text. */
  lemma {:induction false} UpToWhole(s: string, c: char)
    requires c !in s
    ensures UpTo(s, c) == s
  {
    if |s| > 0 {
      UpToWhole(s[1..], c);
    }
  }

  /** Splitting a data URL at its comma returns the payload it was built from. */
  lemma PayloadRoundTrip(prefix: string, payload: string)
    requires ',' !in prefix && ',' !in payload
    ensures PayloadOf(prefix + "," + payload) == Some(payload)
  {
    var s := prefix + "," + payload;
    assert s == prefix + [','] + payload;
    UpToSeparator(prefix, ',', payload);
    assert s[|prefix| + 1..] == payload;
    UpToWhole(payload, ',');
  }

  /** A dish photograph's stored image gives back exactly the payload that was
      read from the upload. */
  lemma DataUrlRoundTrip(head: string, payload: string)
    requires head == "data:image/jpeg;base64"
    requires ',' !in payload
    ensures PayloadOf(DataUrl(payload)) == Some(payload)
  {
    assert forall i :: 0 <= i < |head| ==> head[i] != ',';
    assert DataUrl(payload) == head + "," + payload;
    PayloadRoundTrip(head, payload);
  }

  // ---------------------------------------------------------------------
  // Ids and the finished dish
  // ---------------------------------------------------------------------

  /** `Date.now().toString() + index`. */
  function DishId(stamp: nat, index: nat): (r: string)
    ensures forall i :: 0 <= i < |r| ==> '0' <= r[i] <= '9'
  {
    NatToString(stamp) + NatToString(index)
  }

  /** Two ids are equal only for the same stamp and index, as long as the two
      stamps have equally many digits (every millisecond timestamp between the
      years 2001 and 2286 has thirteen). */
  lemma DishIdInjective(s1: nat, i1: nat, s2: nat, i2: nat)
    requires |NatToString(s1)| == |NatToString(s2)|
    requires DishId(s1, i1) == DishId(s2, i2)
    ensures s1 == s2 && i1 == i2
  {
    var a, b := DishId(s1, i1), DishId(s2, i2);
    var n := |NatToString(s1)|;
    assert a[..n] == NatToString(s1) && b[..n] == NatToString(s2);
    assert a[n..] == NatToString(i1) && b[n..] == NatToString(i2);
    NatToStringInjective(s1, s2);
    NatToStringInjective(i1, i2);
  }

  /** `{...dish, id, image, isMenu}`: the model's own verdict `isMenu`, not
      the combined menu flag, is what each dish records. */
  function Finish(d: InferredDish, id: string, image: string, isMenu: bool): (r: Dish)
    ensures r.name == d.name && r.originalName == d.originalName && r.description == d.description
    ensures r.tags == d.tags && r.allergens == d.allergens && r.spiceLevel == d.spiceLevel
    ensures r.category == d.category && r.boundingBox == Some(d.boundingBox)
    ensures r.isOcrRefined == d.isOcrRefined
    ensures r.id == id && r.image == Some(image) && r.isMenu == Some(isMenu)
  {
    Dish(id, d.name, d.originalName, d.description, Some(image), d.tags, d.allergens,
         d.spiceLevel, d.category, Some(d.boundingBox), d.isOcrRefined, Some(isMenu))
  }

  /** Every dish finished in order; `clock(i)` is the `Date.now()` read for
      the dish at index `i`. */
  function FinishAll(dishes: seq<InferredDish>, clock: nat -> nat, menuLike: bool,
                     isMenu: bool, payload: string): (r: seq<Dish>)
    ensures |r| == |dishes|
    ensures forall i :: 0 <= i < |dishes| ==>
      r[i] == Finish(dishes[i], DishId(clock(i), i), ImageFor(dishes[i], menuLike, payload), isMenu)
  {
    seq(|dishes|, i requires 0 <= i < |dishes| =>
      Finish(dishes[i], DishId(clock(i), i), ImageFor(dishes[i], menuLike, payload), isMenu))
  }

  // ---------------------------------------------------------------------
  // Errors
  // ---------------------------------------------------------------------

  /** What a thrown error exposes: `error.message` and `error.status`. */
  datatype ErrorInfo = ErrorInfo(message: Option<string>, status: Option<string>)

  /** The status text shown and the delay, in milliseconds, before the scan is cancelled. */
  datatype Failure = Failure(status: string, cancelAfterMs: nat)

  const QuotaStatus: string := "Gemini API Quota Exceeded. Please try again later."
  const GenericStatus: string := "Error scanning. Try again."

  /** A rate-limit error: the message mentions 429 or Quota (case-sensitive),
      or the status is RESOURCE_EXHAUSTED. */
  predicate IsQuotaError(e: ErrorInfo) {
    || (e.message.Some? && (Contains(e.message.value, "429") || Contains(e.message.value, "Quota")))
    || e.status == Some("RESOURCE_EXHAUSTED")
  }

  /** Rate-limit errors leave their message up for five seconds, all others
      for three. */
  function Classify(e: ErrorInfo): (r: Failure)
    ensures IsQuotaError(e) <==> r.cancelAfterMs == 5000
    ensures IsQuotaError(e) ==> r.status == QuotaStatus
    ensures !IsQuotaError(e) ==> r == Failure(GenericStatus, 3000)
  {
    if IsQuotaError(e) then Failure(QuotaStatus, 5000) else Failure(GenericStatus, 3000)
  }

  /** Any message that mentions the HTTP status 429 is a rate-limit error,
      whatever else it says and whatever the status field holds. */
  lemma Mentioning429IsQuota(before: string, after: string, status: Option<string>)
    ensures Classify(ErrorInfo(Some(before + "429" + after), status)).cancelAfterMs == 5000
  {
    var m := before + "429" + after;
    assert m[|before|..|before| + 3] == "429";
    assert OccursAt(m, "429", |before|);
  }

  /** A RESOURCE_EXHAUSTED status is a rate-limit error, even with no message. */
  lemma ExhaustedIsQuota(message: Option<string>)
    ensures Classify(ErrorInfo(message, Some("RESOURCE_EXHAUSTED"))).status == QuotaStatus
  {
  }

  // ---------------------------------------------------------------------
  // The whole scan
  // ---------------------------------------------------------------------

  /** A step that either produced a value or threw. */
  datatype Attempt<T> = Ok(value: T) | Thrown(error: ErrorInfo)

  /** Everything the scan receives from outside the component. */
  datatype ScanInput = ScanInput(
    uploadedImage: Option<string>,
    scanType: ScanType,
    /** the photograph's base64 payload, or the error reading it threw */
    photo: Attempt<string>,
    /** the inference service's reply text, or the error the call threw */
    reply: Attempt<Option<string>>,
    /** the OCR lines and image size; `None` when recognition failed */
    ocr: Option<OcrPage>,
    /** `Date.now()` as read for the dish at each index */
    clock: nat -> nat,
    /** the component stays mounted until its callback is due */
    mounted: bool
  )

  /** How a scan ends. */
  datatype Outcome =
    | NotStarted                                   // no image: nothing happens
    | Abandoned                                    // unmounted: no callback fires
    | Completed(dishes: seq<Dish>, isMenu: bool)   // `onComplete` after 300 ms, progress 100
    | Failed(failure: Failure)                     // `onCancel` after the delay, progress 0

  /** `if (!uploadedImage) return`: absent and empty both count as missing. */
  predicate HasImage(image: Option<string>) {
    image.Some? && image.value != ""
  }

  /** The OCR page is usable: a decoded image and boxes inside it. */
  predicate BoxesInside(page: OcrPage) {
    forall j :: 0 <= j < |page.lines| ==>
      var b := page.lines[j].bbox;
      0 <= b.y0 <= b.y1 <= page.height && 0 <= b.x0 <= b.x1 <= page.width
  }

  /** The scan: the photograph is read, the reply is cleaned and parsed, the
      dishes are localised against the OCR lines when there are any, then
      given ids and images. The first step that throws decides the failure. */
  function Analyze(inp: ScanInput, parse: string -> Attempt<ParsedReply>): (r: Outcome)
    requires inp.ocr.Some? ==> WellFormed(inp.ocr.value)
    ensures r.NotStarted? <==> !HasImage(inp.uploadedImage)
    ensures r.Abandoned? <==> HasImage(inp.uploadedImage) && !inp.mounted
    ensures r.Completed? <==>
      && HasImage(inp.uploadedImage) && inp.mounted
      && inp.photo.Ok? && inp.reply.Ok? && parse(CleanReply(inp.reply.value)).Ok?
    ensures r.Completed? ==>
      var p := parse(CleanReply(inp.reply.value)).value;
      && |r.dishes| == |DishesOf(p)|
      && r.isMenu == (MenuOf(p) || inp.scanType == MenuScan)
      && forall i :: 0 <= i < |r.dishes| ==> r.dishes[i].isMenu == Some(MenuOf(p))
    ensures r.Failed? ==>
      if inp.photo.Thrown? then r.failure == Classify(inp.photo.error)
      else if inp.reply.Thrown? then r.failure == Classify(inp.reply.error)
      else r.failure == Classify(parse(CleanReply(inp.reply.value)).error)
  {
    if !HasImage(inp.uploadedImage) then NotStarted
    else if !inp.mounted then Abandoned
    else match inp.photo
      case Thrown(e) => Failed(Classify(e))
      case Ok(payload) =>
        match inp.reply
        case Thrown(e) => Failed(Classify(e))
        case Ok(text) =>
          match parse(CleanReply(text))
          case Thrown(e) => Failed(Classify(e))
          case Ok(p) =>
            var menuLike := MenuOf(p) || inp.scanType == MenuScan;
            var located := RefineAll(DishesOf(p), inp.ocr);
            Completed(FinishAll(located, inp.clock, menuLike, MenuOf(p), payload), menuLike)
  }

  /** The dishes of a completed scan, as the parsed reply gave them. */
  function Inferred(inp: ScanInput, parse: string -> Attempt<ParsedReply>): seq<InferredDish>
    requires inp.reply.Ok? && parse(CleanReply(inp.reply.value)).Ok?
  {
    DishesOf(parse(CleanReply(inp.reply.value)).value)
  }

  /** Each finished dish keeps what inference said about it (name, original
      name, description, tags, allergens, spice level, category) and gets the
      id built from its clock reading and index. */
  lemma CompletedDishesFollowInference(inp: ScanInput, parse: string -> Attempt<ParsedReply>, i: int)
    requires inp.ocr.Some? ==> WellFormed(inp.ocr.value)
    requires Analyze(inp, parse).Completed?
    requires 0 <= i < |Analyze(inp, parse).dishes|
    ensures var d, src := Analyze(inp, parse).dishes[i], Inferred(inp, parse)[i];
      && d.name == src.name && d.originalName == src.originalName
      && d.description == src.description && d.tags == src.tags && d.allergens == src.allergens
      && d.spiceLevel == src.spiceLevel && d.category == src.category
      && d.id == DishId(inp.clock(i), i)
  {
  }

  /** Without OCR lines every dish keeps the box inference gave it. */
  lemma NoOcrKeepsInferredBoxes(inp: ScanInput, parse: string -> Attempt<ParsedReply>, i: int)
    requires inp.ocr.None?
    requires Analyze(inp, parse).Completed?
    requires 0 <= i < |Analyze(inp, parse).dishes|
    ensures var d, src := Analyze(inp, parse).dishes[i], Inferred(inp, parse)[i];
      d.boundingBox == Some(src.boundingBox) && d.isOcrRefined == src.isOcrRefined
  {
  }

  /** With OCR lines inside the image, every box is either the one inference
      gave or an OCR box on the 0..1000 scale marked as refined. */
  lemma RefinedBoxesInRange(inp: ScanInput, parse: string -> Attempt<ParsedReply>, i: int)
    requires inp.ocr.Some? && WellFormed(inp.ocr.value) && BoxesInside(inp.ocr.value)
    requires Analyze(inp, parse).Completed?
    requires 0 <= i < |Analyze(inp, parse).dishes|
    ensures var d, src := Analyze(inp, parse).dishes[i], Inferred(inp, parse)[i];
      || d.boundingBox == Some(src.boundingBox)
      || (d.isOcrRefined == Some(true) && InUnitSquare(d.boundingBox.value))
  {
    var src := Inferred(inp, parse)[i];
    var page := inp.ocr.value;
    if HasConfidentLine(src, page) {
      var k :| IsFirstBest(Normalize(src.originalName), page.lines, k) &&
        Refine(src, page) == src.(isOcrRefined := Some(true),
                                  boundingBox := ToNormalized(page.lines[k].bbox, page.width, page.height));
      assert 0 <= k < |page.lines|;
    }
  }

  /** In a menu scan every image is a thumbnail search whose query can be read
      back from the address: the dish's original name and label. */
  lemma MenuImagesAreSearches(inp: ScanInput, parse: string -> Attempt<ParsedReply>, i: int)
    requires inp.ocr.Some? ==> WellFormed(inp.ocr.value)
    requires Analyze(inp, parse).Completed? && Analyze(inp, parse).isMenu
    requires 0 <= i < |Analyze(inp, parse).dishes|
    ensures var img := Analyze(inp, parse).dishes[i].image.value;
      && StartsWith(img, ThumbnailPrefix)
      && Uri.Decode(img[|ThumbnailPrefix|..|img| - |ThumbnailSuffix|]) ==
           Some(SearchQuery(Inferred(inp, parse)[i]))
  {
    var src := Inferred(inp, parse)[i];
    var located := RefineAll(Inferred(inp, parse), inp.ocr);
    assert located[i].originalName == src.originalName && located[i].englishName == src.englishName
      && located[i].name == src.name;
    assert SearchQuery(located[i]) == SearchQuery(src);
  }

  /** In a dish scan (neither the model nor the user called it a menu) every
      image is the uploaded photograph, and its payload reads back. */
  lemma DishImagesArePhoto(inp: ScanInput, parse: string -> Attempt<ParsedReply>, i: int)
    requires inp.ocr.Some? ==> WellFormed(inp.ocr.value)
    requires Analyze(inp, parse).Completed? && !Analyze(inp, parse).isMenu
    requires 0 <= i < |Analyze(inp, parse).dishes|
    ensures Analyze(inp, parse).dishes[i].image == Some(DataUrl(inp.photo.value))
    ensures ',' !in inp.photo.value ==>
      PayloadOf(Analyze(inp, parse).dishes[i].image.value) == Some(inp.photo.value)
  {
    if ',' !in inp.photo.value {
      DataUrlRoundTrip("data:image/jpeg;base64", inp.photo.value);
    }
  }

  /** A user's menu scan is a menu scan whatever the model says. */
  lemma MenuChoiceWins(inp: ScanInput, parse: string -> Attempt<ParsedReply>)
    requires inp.ocr.Some? ==> WellFormed(inp.ocr.value)
    requires inp.scanType == MenuScan && Analyze(inp, parse).Completed?
    ensures Analyze(inp, parse).isMenu
  {
  }

  /** The ids of one scan are pairwise distinct when the clock readings have
      equally many digits. */
  lemma CompletedIdsDistinct(inp: ScanInput, parse: string -> Attempt<ParsedReply>, i: int, j: int)
    requires inp.ocr.Some? ==> WellFormed(inp.ocr.value)
    requires Analyze(inp, parse).Completed?
    requires 0 <= i < j < |Analyze(inp, parse).dishes|
    requires |NatToString(inp.clock(i))| == |NatToString(inp.clock(j))|
    ensures Analyze(inp, parse).dishes[i].id != Analyze(inp, parse).dishes[j].id
  {
    var r := Analyze(inp, parse);
    assert r.dishes[i].id == DishId(inp.clock(i), i);
    assert r.dishes[j].id == DishId(inp.clock(j), j);
    if r.dishes[i].id == r.dishes[j].id {
      DishIdInjective(inp.clock(i), i, inp.clock(j), j);
    }
  }
}
