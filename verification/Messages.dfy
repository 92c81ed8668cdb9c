/** internal/common/types.go: the message passed around inside an edge node. */
module Messages {
  datatype Danmaku = Danmaku(room: int, sender: string, videoTS: int, payload: seq<bv8>)
}
