/** The replies a handler writes to its connection, one event per `conn.Write…` call. */
module Resp {
  import opened Bytes

  datatype Event =
    | Error(msg: string)  // conn.WriteError
    | Str(s: string)      // conn.WriteString
    | Int(n: int)         // conn.WriteInt
    | Array(count: nat)   // conn.WriteArray: header of an array of `count` replies
    | Bulk(b: Bytes)      // conn.WriteBulk
    | Null                // conn.WriteNull
}
