/**
 Local stand-ins for the `Frame` and `Command` types of the `mini_redis`
 crate, which is not part of this model. Only the variants the connection
 handler of my-redis/src/main.rs touches are declared.
 */
module Frames {

  /** An unsigned 8-bit byte, the element type of `Bytes` and `Vec<u8>`. */
  newtype byte = b: int | 0 <= b < 256

  /** A response frame: `Frame::Simple`, `Frame::Bulk` or `Frame::Null`. */
  datatype Frame = Simple(text: string) | Bulk(data: seq<byte>) | Null

  /**
   A decoded command. `Other` stands for every command other than GET and SET
   (`Publish`, `Subscribe`, `Unknown`, ...), which the handler does not serve.
   */
  datatype Command =
    | Get(key: string)
    | Set(key: string, value: seq<byte>)
    | Other(name: string)

  /**
   One frame read from the connection, after `Command::from_frame`: either a
   command or the parse error `from_frame` returned for it.
   */
  datatype Incoming = Decoded(cmd: Command) | Malformed(reason: string)
}
