/** The message a producer publishes (src/message.rs). Its JSON decoding
    belongs to a serialisation library and is not modelled; the scenarios
    use it as the published payload. */
module Commands {

  datatype Message = Message(sender: string, body: string)
}
