/** The image picker's change handler (components/ImageUploader.tsx:15-33):
    accept a file of one of three image types, take the base64 payload out
    of its data URL, and report it or report `null`; a failed read makes
    the handler throw before it reports anything. */
module ImageUploader {
  import opened Types
  import opened Text

  /** The selected file, as far as the handler looks at it. */
  datatype File = File(name: string, mimeType: string)

  const AcceptedTypes: seq<string> := ["image/jpeg", "image/png", "image/webp"]

  /** The test at line 16: a file is present and its type is one of the
      three whitelisted strings, compared verbatim. */
  predicate Accepts(file: Option<File>)
  {
    file.Some? && file.value.mimeType in AcceptedTypes
  }

  /** `dataUrl.split(',')[1]`: the second comma-separated piece, undefined
      (`None`) when there is no comma at all. */
  function Base64Payload(dataUrl: string): (r: Option<string>)
    ensures r.Some? <==> ',' in dataUrl
    ensures r.Some? ==> ',' !in r.value
  {
    var pieces := Split(dataUrl, ',');
    if |pieces| > 1 then Some(pieces[1]) else None
  }

  /** The payload is the text between the first comma and the next comma,
      or the end of the string. */
  lemma PayloadBetweenCommas(head: string, payload: string, rest: string)
    requires ',' !in head && ',' !in payload
    requires rest == [] || rest[0] == ','
    ensures Base64Payload(head + [','] + payload + rest) == Some(payload)
  {
    var tail := payload + rest;
    assert head + [','] + payload + rest == head + [','] + tail;
    SplitAfterHead(head, ',', tail);
    SplitFirstPiece(payload, ',', rest);
  }

  /** What becomes of one change event: `onImageUpload` is called with the
      image or with `null`, or the `onloadend` handler throws before calling
      it, because the read failed and `reader.result` is `null`. */
  datatype Upload = Reported(image: ImageFile) | ReportedNull | Threw

  /** The component's own state: the preview data URL and the file name. */
  class Uploader {
    var imagePreview: Option<string>
    var fileName: Option<string>

    constructor ()
      ensures imagePreview == None && fileName == None
    {
      imagePreview := None;
      fileName := None;
    }

    /** `handleFileChange`. `readerResult` is `reader.result` when
        `onloadend` fires: the file's data URL, or `None` when the read
        failed. */
    method HandleFileChange(file: Option<File>, readerResult: Option<string>) returns (outcome: Upload)
      modifies this
      ensures outcome.Reported? <==> Accepts(file) && readerResult.Some?
      ensures outcome.ReportedNull? <==> !Accepts(file)
      ensures outcome.Threw? <==> Accepts(file) && readerResult.None?
      ensures outcome.Reported? ==>
        outcome.image == ImageFile(Base64Payload(readerResult.value), file.value.mimeType, file.value.name)
      ensures outcome.Reported? ==> imagePreview == readerResult && fileName == Some(outcome.image.name)
      ensures outcome.ReportedNull? ==> imagePreview == None && fileName == None
      ensures outcome.Threw? ==> imagePreview == old(imagePreview) && fileName == old(fileName)
    {
      if file.Some? && file.value.mimeType in AcceptedTypes {
        var f := file.value;
        if readerResult.None? {
          return Threw;
        }
        var dataUrl := readerResult.value;
        var base64String := Base64Payload(dataUrl);
        outcome := Reported(ImageFile(base64String, f.mimeType, f.name));
        imagePreview := Some(dataUrl);
        fileName := Some(f.name);
      } else {
        outcome := ReportedNull;
        imagePreview := None;
        fileName := None;
      }
    }
  }
}
