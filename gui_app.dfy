/** The `/caption` endpoint of the web app: it validates the posted JSON, splits the data
    URL (`data:[<mediatype>][;base64],<data>`, section 3 of RFC 2397) at its first comma,
    hands the payload to the decoding-and-captioning step, and answers with the cleaned
    captions or an error. Flask, base64 decoding, the image library, temporary files
    and the model are not modelled: the request arrives parsed, and the
    decoding-and-captioning step is the parameter `process`. */
module GuiApp {

  import opened Outcomes
  import opened Text
  import opened Json
  import opened Captions

  /** What `request.get_json(force=True)` sees: a JSON document, or text that is not one
      (an empty body included). */
  datatype RequestBody = Parsed(json: Value) | Unparsable

  /** The outcome of decoding the payload and captioning the picture: the model's raw
      captions, or the text of the exception raised on the way. */
  datatype Processing = Generated(outputs: seq<string>) | Raised(message: string)

  /** A response body: `{"error": ...}`, `{"captions": [...]}`, or the page Flask
      produces for a malformed body or an exception the handler does not catch. */
  datatype Body = ErrorMessage(message: string) | CaptionList(captions: seq<string>)
                | BadRequestPage | ServerErrorPage

  datatype Response = Response(status: nat, body: Body)

  /** Python's truth value of a JSON value. */
  predicate Truthy(v: Value) {
    match v
    case Null => false
    case Bool(b) => b
    case Num(n) => n != 0
    case Str(s) => s != []
    case Arr(items) => items != []
    case Obj(fields) => fields != map[]
  }

  /** `key in data`: a dict tests its keys, a list its elements, a string its
      substrings; for a number or a boolean the test raises. */
  function Contains(data: Value, key: string): (r: Result<bool>)
    ensures data.Obj? ==> r == Ok(key in data.fields)
    ensures r.Fail? <==> data.Null? || data.Bool? || data.Num?
  {
    match data
    case Obj(fields) => Ok(key in fields)
    case Arr(items) => Ok(Str(key) in items)
    case Str(s) => Ok(Occurs(s, key))
    case _ => Fail(TypeError)
  }

  /** The data URL's payload: everything after the first comma, or nothing when the
      URL has no comma (`split(",", 1)` then gives one part and the unpacking fails). */
  function Payload(url: string): (r: Option<string>)
    ensures r.None? <==> ',' !in url
    ensures r.Some? ==> exists header :: ',' !in header && url == header + "," + r.value
  {
    match SplitOnce(url, ',')
    case None => None
    case Some((header, data)) =>
      assert url == header + "," + data;
      Some(data)
  }

  /** The payload is found at the first comma: later commas belong to it. */
  lemma PayloadAfterFirstComma(header: string, data: string)
    requires ',' !in header
    ensures Payload(header + "," + data) == Some(data)
  {
    SplitOnceInverse(header, ',', data);
    assert header + "," + data == header + [','] + data;
  }

  const NoImageData := "No image_data provided."
  const MalformedUrl := "Malformed data URL."
  const ProcessingFailed := "Failed to process image: "

  /** `caption()`: the handler's early returns in order, and the uncaught exceptions
      that Flask turns into a server error. */
  function HandleCaption(request: RequestBody, process: string -> Processing): (r: Response)
    ensures r.status == 200 || r.status == 400 || r.status == 500
    ensures r.status == 200 <==> r.body.CaptionList?
    ensures r.body.CaptionList? ==> r.body.captions != [] && forall s :: s in r.body.captions ==> Clean(s)
    ensures request.Unparsable? ==> r == Response(400, BadRequestPage)
    ensures request.Parsed? && !Truthy(request.json) ==> r == Response(400, ErrorMessage(NoImageData))
  {
    match request
    case Unparsable => Response(400, BadRequestPage)
    case Parsed(data) =>
      if !Truthy(data) then Response(400, ErrorMessage(NoImageData))
      else
        match Contains(data, "image_data")
        case Fail(_) => Response(500, ServerErrorPage)
        case Ok(present) =>
          if !present then Response(400, ErrorMessage(NoImageData))
          else if !data.Obj? then
            // Indexing a list or a string with a string raises.
            Response(500, ServerErrorPage)
          else
            var url := data.fields["image_data"];
            if !url.Str? then
              // Only strings have `split`.
              Response(500, ServerErrorPage)
            else
              match Payload(url.s)
              case None => Response(400, ErrorMessage(MalformedUrl))
              case Some(payload) =>
                match process(payload)
                case Raised(message) => Response(500, ErrorMessage(ProcessingFailed + message))
                case Generated(outputs) => Response(200, CaptionList(CleanCaptions(outputs)))
  }

  /** A JSON object without `image_data` is answered 400 with the missing-data message. */
  lemma MissingImageData(fields: map<string, Value>, process: string -> Processing)
    requires "image_data" !in fields
    ensures HandleCaption(Parsed(Obj(fields)), process) == Response(400, ErrorMessage(NoImageData))
  {
  }

  /** A data URL without a comma is answered 400 with the malformed-URL message, and
      nothing is processed. */
  lemma UrlWithoutComma(fields: map<string, Value>, url: string, process: string -> Processing)
    requires "image_data" in fields && fields["image_data"] == Str(url) && ',' !in url
    ensures HandleCaption(Parsed(Obj(fields)), process) == Response(400, ErrorMessage(MalformedUrl))
  {
  }

  /** A well-formed data URL has its payload, everything after the first comma, processed:
      captions give a 200 answer with the cleaned captions, an exception a 500 answer
      whose message starts with the failure prefix. */
  lemma UrlWithComma(fields: map<string, Value>, header: string, data: string,
                     process: string -> Processing)
    requires "image_data" in fields && fields["image_data"] == Str(header + "," + data)
    requires ',' !in header
    ensures var r := HandleCaption(Parsed(Obj(fields)), process);
      match process(data)
      case Generated(outputs) => r == Response(200, CaptionList(CleanCaptions(outputs)))
      case Raised(m) => r == Response(500, ErrorMessage(ProcessingFailed + m))
  {
    var url := header + "," + data;
    assert Truthy(Obj(fields)) by {
      assert fields != map[] by {
        assert "image_data" in fields;
      }
    }
    assert Contains(Obj(fields), "image_data") == Ok(true);
    PayloadAfterFirstComma(header, data);
    assert Payload(url) == Some(data);
  }
}
