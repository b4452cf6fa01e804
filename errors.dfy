/** The failures the core raises, one per exception site. */
module Errors {
  import Formatting

  datatype Error =
    | InvalidGoBackCount                          // ValueError raised by go_back for a count below 1
    | InvalidAction                               // ValueError raised by MenuManager.select
    | UnknownMenu(name: string)                   // KeyError when a menu name is not in the registry
    | UnknownActionResult                         // a FunctionAction result that has no update_payload
    | FormatFailed(cause: Formatting.FormatError) // str.format failing on a template
    | ImmutableItemList                           // RuntimeError raised by Menu.add_item
    | NoSuchAttribute(key: string)                // getattr failing in Content.__getitem__
}
