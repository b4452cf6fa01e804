/** Message content: a record whose fields are read by name. */
module Contents {
  import opened Wrappers
  import opened Errors
  import opened Serialized

  datatype Content = Content(text: Option<string> := None) {

    /** `content[key]`: the attribute named `key`; only `text` exists. */
    function Get(key: string): (r: Result<Option<string>, Error>)
      ensures r.Success? <==> key in Keys()
      ensures key == "text" ==> r == Success(text)
      ensures r.Failure? ==> r.error == NoSuchAttribute(key)
    {
      if key == "text" then Success(text) else Failure(NoSuchAttribute(key))
    }

    /** Holds `text` exactly when the text is not None. */
    function Serialize(): (r: map<string, Value>)
      ensures "text" in r <==> text.Some?
      ensures text.Some? ==> r["text"] == Str(text.value)
      ensures r.Keys <= set k | k in Keys()
    {
      if text.Some? then map["text" := Str(text.value)] else map[]
    }
  }

  /** `Content.keys()`: the field names a content spreads into keyword arguments. */
  function Keys(): seq<string> {
    ["text"]
  }
}
