/** JSON values as a provider sends them. */
module Json {

  /** A number that is whole is written as an integer, and one that is not is not. */
  datatype Value =
    | Null
    | Bool(flag: bool)
    | Whole(n: int)
    | Fraction(r: real)
    | Str(text: string)
    | Arr(elems: seq<Value>)
    | Obj(members: seq<Member>)

  datatype Member = Member(key: string, value: Value)
}
