/** The server-side upload check: `UploadSerializer.validate_file`. */
module Serializers {
  import opened Wrappers

  /** The part of Django's `UploadedFile` the validator reads. */
  datatype UploadedFile = UploadedFile(name: string, contentType: string)

  /** `serializers.ValidationError` with its message. */
  datatype ValidationError = ValidationError(message: string)

  /** `allowed_types` */
  const AllowedTypes: seq<string> := ["video", "image"]

  const OnlyVideoOrImage: string := "Only video or image files are allowed."

  /** `any(s.startswith(t) for t in prefixes)` */
  function AnyStartsWith(prefixes: seq<string>, s: string): (b: bool)
    ensures b <==> exists k :: 0 <= k < |prefixes| && prefixes[k] <= s
  {
    if prefixes == [] then false
    else if prefixes[0] <= s then true
    else
      var rest := AnyStartsWith(prefixes[1..], s);
      assert forall k :: 1 <= k < |prefixes| ==> prefixes[k] == prefixes[1..][k - 1];
      rest
  }

  /** `validate_file`: the file comes back unchanged when its content type
      starts with "video" or "image" (case-sensitive, no "/" required), and
      every other content type is refused with the fixed message. */
  function ValidateFile(value: UploadedFile): (r: Result<UploadedFile, ValidationError>)
    ensures r.Success? <==> "video" <= value.contentType || "image" <= value.contentType
    ensures r.Success? ==> r.value == value
    ensures r.Failure? ==> r.error == ValidationError(OnlyVideoOrImage)
  {
    var allowed := AnyStartsWith(AllowedTypes, value.contentType);
    assert allowed <==> AllowedTypes[0] <= value.contentType || AllowedTypes[1] <= value.contentType;
    if !allowed then Failure(ValidationError(OnlyVideoOrImage))
    else Success(value)
  }
}
