/** What the three forms report against a field. Each form's `validate` builds
    an object from field names to messages; the model keeps the field and the
    kind of message. */
module FormErrors {

  datatype Problem =
    | Required      // the field was left empty
    | Invalid       // the field holds something unusable
    | Unavailable   // the chosen car is already booked for the dates
}
