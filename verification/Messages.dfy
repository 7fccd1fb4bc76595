/** The OpenFlow messages exchanged with the switch, as far as the controller tells them apart. */
module Messages {

  /** Messages to the switch. */
  datatype Message = Hello | EchoReply | FeaturesRequest | Unsolicited(body: seq<int>)

  /** Messages from the switch. */
  datatype Received = HelloReceived | EchoRequest | EchoReplyReceived | SwitchFeatures(datapathID: int) | OtherReceived
}
