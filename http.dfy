/** The error responses the route handlers send. */
module Http {

  datatype ApiError =
    /** `res.status(status).json({ message })` */
    | Message(status: nat, message: string)
    /** `res.status(400).json({ errors })`, the messages of the request validators that failed */
    | Invalid(errors: seq<string>)
    /** `res.status(500).send(text)`, sent for every exception a handler catches */
    | ServerFault(text: string)
}
