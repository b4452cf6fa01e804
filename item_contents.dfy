/** What a menu item shows on its button. */
module ItemContents {
  import opened Keyboards
  import opened Serialized

  /** The dictionary an item renders to, told apart by its `type`. */
  datatype RenderedItem =
    | ButtonContent(text: string, color: int, payload: string)
    | LineBreakContent
  {
    function Type(): string {
      if ButtonContent? then "button" else "line_break"
    }
  }

  datatype ItemContent = TextItemContent(text: string, color: int := DEFAULT) {

    /** A button carrying this text and color, with `payload` as its payload. */
    function GetContent(payload: string): (r: RenderedItem)
      ensures r.Type() == "button"
      ensures r.text == text && r.color == color && r.payload == payload
    {
      ButtonContent(text, color, payload)
    }

    /** The text always; the color only when it is not the default one. */
    function Serialize(): (r: map<string, Value>)
      ensures "text" in r && r["text"] == Str(text)
      ensures "color" in r <==> color != DEFAULT
      ensures "color" in r ==> r["color"] == Int(color)
      ensures r.Keys <= {"text", "color"}
    {
      map["text" := Str(text)] + (if color != DEFAULT then map["color" := Int(color)] else map[])
    }
  }
}
