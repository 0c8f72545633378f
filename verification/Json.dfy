/** JSON values. Objects are finite maps: the order of keys carries no meaning. Numbers are their lexemes. */
module Json {
  import opened Texts

  datatype Value =
    | Null
    | Bool(b: bool)
    | Num(lexeme: Text)
    | Str(s: Text)
    | Arr(items: seq<Value>)
    | Obj(members: map<Text, Value>)
}
