/** The values that travel through the hooks: a consumed message and the
    error a handler or a hook may raise. */
module Messages {

  /** A message taken off a RabbitMQ queue. The hooks modelled here only pass
      it along; the body is kept as its text. */
  datatype RabbitMQMessage = RabbitMQMessage(body: string, deliveryTag: nat)

  /** A raised Python error. `Exception` is anything an `except Exception`
      clause catches; `BaseException` stands for the errors outside that class
      (task cancellation, `KeyboardInterrupt`, `SystemExit`). */
  datatype Error =
    | Exception(text: string)
    | BaseException(text: string)
}
