/** The MS/TP frame as the codec and the token ring both see it. */
module MstpFrames {
  import opened Machine

  datatype FrameType =
    | Token
    | PollForMaster
    | ReplyToPollForMaster
    | TestRequest
    | TestResponse
    | BacnetDataExpectingReply
    | BacnetDataNotExpectingReply
    | ReplyPostponed

  datatype Frame = Frame(frameType: FrameType, destination: U8, source: U8, data: Bytes)
}
