// The control packet that the receiver sends and the sender handles; both
// sides declare the same fields (dataplane/interface.go:9-20,
// controlplane/interface.go:19-30).
module Messages {

  datatype AckPacket = AckPacket(
    partId: int,
    lastSequenceNumber: int,
    numPacketsPerTx: int,
    packetTxIndex: int,
    missingSequenceNumbers: seq<int>,
    missingSequenceNumberOffsets: seq<int>,
    transactionId: int,
    requestSequenceId: int,
    numPackets: int,
    partFinished: bool)

  // The packet that ends a part: it asks for nothing.
  function PartFinish(partId: int, recvPackets: int): AckPacket
  {
    AckPacket(partId, 0, 0, 0, [], [], 0, 0, recvPackets, true)
  }
}
