/** JSON values. Texts are byte strings (UTF-8). A number is kept as its token, so that no
    floating-point value is involved; an object is kept as its list of members. */
module Json {
  datatype Member = Member(key: string, value: Value)

  datatype Value =
    | Null
    | Bool(b: bool)
    | Number(token: string)
    | String(text: string)
    | Array(items: seq<Value>)
    | Object(members: seq<Member>)
}
