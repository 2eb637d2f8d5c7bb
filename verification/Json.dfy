/** JSON texts (RFC 8259): the grammar that the streaming extractor and the completion detector are held to. */
module Json {

  /** A character of a string, or a backslash with the character it escapes. */
  datatype Item = Plain(c: char) | Escaped(c: char)

  datatype Value =
    | Literal(text: string)                    // a number, true, false or null
    | Text(items: seq<Item>)
    | Array(pad: string, elems: Fields)
    | Object(pad: string, members: Fields)

  /** The elements of an array or the members of an object, with the white space around them. */
  datatype Fields = NoFields | Field(key: Key, value: Value, post: string, rest: Fields)

  datatype Key = Bare(pre: string) | Named(pre: string, name: seq<Item>, mid: string, gap: string)

  predicate IsSpace(c: char) { c in {' ', '\t', '\n', '\r'} }
  predicate AllSpace(s: string) { forall i :: 0 <= i < |s| ==> IsSpace(s[i]) }
  predicate Structural(c: char) { c in {'"', '{', '}', '[', ']', ',', ':'} }
  predicate IsLiteral(s: string) { s != "" && forall i :: 0 <= i < |s| ==> !Structural(s[i]) && !IsSpace(s[i]) && s[i] != '\\' }
  predicate GoodItems(items: seq<Item>) {
    forall i :: 0 <= i < |items| && items[i].Plain? ==> items[i].c != '"' && items[i].c != '\\' && items[i].c != '\0'
  }

  predicate GoodKey(k: Key, named: bool) {
    match k
    case Bare(pre) => !named && AllSpace(pre)
    case Named(pre, name, mid, gap) => named && AllSpace(pre) && GoodItems(name) && AllSpace(mid) && AllSpace(gap)
  }

  predicate Good(v: Value) {
    match v
    case Literal(text) => IsLiteral(text)
    case Text(items) => GoodItems(items)
    case Array(pad, elems) => AllSpace(pad) && GoodFields(elems, false)
    case Object(pad, members) => AllSpace(pad) && GoodFields(members, true)
  }

  predicate GoodFields(fs: Fields, named: bool) {
    match fs
    case NoFields => true
    case Field(key, value, post, rest) =>
      GoodKey(key, named) && Good(value) && AllSpace(post) && GoodFields(rest, named)
  }

  function ShowItem(i: Item): string { match i case Plain(c) => [c] case Escaped(c) => ['\\', c] }

  function ShowItems(items: seq<Item>): string {
    if items == [] then "" else ShowItem(items[0]) + ShowItems(items[1..])
  }

  function Quoted(items: seq<Item>): string { "\"" + ShowItems(items) + "\"" }

  function ShowKey(k: Key): string {
    match k
    case Bare(pre) => pre
    case Named(pre, name, mid, gap) => pre + Quoted(name) + mid + ":" + gap
  }

  function Show(v: Value): string {
    match v
    case Literal(text) => text
    case Text(items) => Quoted(items)
    case Array(pad, elems) => "[" + pad + ShowFields(elems) + "]"
    case Object(pad, members) => "{" + pad + ShowFields(members) + "}"
  }

  function ShowFields(fs: Fields): string {
    match fs
    case NoFields => ""
    case Field(key, value, post, rest) =>
      ShowKey(key) + Show(value) + post + (if rest == NoFields then "" else "," + ShowFields(rest))
  }
}
