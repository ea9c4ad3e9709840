/** Items as the widget sees them, how the default renderer displays them, and the
    completion callbacks the widget hands to its item sources. */
module Items {

  datatype Option<T> = None | Some(value: T)

  /** An item supplied by the host. JavaScript `undefined` and `null` are `Absent`; a string
      is `Text`; any other object is `Obj`, with its `label` property (`labelText`), its
      `value` property ("" when a property is missing, which JavaScript treats as false
      alike) and `str`, what its `toString()` yields. */
  datatype Item =
    | Absent
    | Text(text: string)
    | Obj(labelText: string, value: string, str: string)

  /** What `toString()` yields for a plain object. */
  const ObjectString: string := "[object Object]"

  /** JavaScript truthiness of an item. */
  predicate Truthy(item: Item) {
    match item
    case Absent => false
    case Text(t) => t != ""
    case Obj(_, _, _) => true
  }

  /** The `label` property of an item ("" for one that has none). */
  function LabelOf(item: Item): string {
    if item.Obj? then item.labelText else ""
  }

  /** `defaultRenderItem`: nothing for a missing item, a string as itself, an object by its
      label, and an object without a label by its string conversion. */
  function RenderItem(item: Item): (r: string)
    ensures !Truthy(item) ==> r == ""
    ensures item.Obj? && item.labelText != "" ==> r == item.labelText
    ensures item.Text? ==> r == item.text
    ensures item.Obj? && item.labelText == "" ==> r == item.str
  {
    match item
    case Absent => ""
    case Text(t) => t
    case Obj(labelText, _, str) => if labelText != "" then labelText else str
  }

  /** An `<option>` of the underlying `<select>`: its `value` attribute and its text. */
  datatype OptionElement = OptionElement(value: string, text: string)

  /** `itemFromOption`: an option becomes an object whose label is the option's text and whose
      value is the option's value. */
  function ItemFromOption(option: OptionElement): (r: Item)
    ensures r.Obj? && LabelOf(r) == option.text && r.value == option.value
    ensures option.text != "" ==> RenderItem(r) == option.text
  {
    Obj(option.text, option.value, ObjectString)
  }

  /** The completion callbacks the widget passes to `load`: after a filter it checks for an
      empty result; after the first load it makes the initial selection and signals ready. */
  datatype Done = CheckForNoResults(term: string) | InitialSelection
}
