/** The messages of mq/mqenv/index.go, as far as the clients look at them. */
module MqEnv {

  /** A message to publish; `id` tells messages apart. */
  datatype Message = Message(id: nat, correlationId: string, replyTo: string)

  /** A message received from a queue or topic. */
  datatype Delivery = Delivery(correlationId: string, replyTo: string, body: int)

  /** Only a delivery that names itself and an address is replied to. */
  predicate NeedsReply(m: Delivery) {
    m.correlationId != "" && m.replyTo != ""
  }
}
