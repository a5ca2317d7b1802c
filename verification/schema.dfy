/**
 The records the service stores: users and the contact edges between them
 (schema/schema.go).
 */
module Schema {

  /** An instant, in whole seconds since 0001-01-01T00:00:00Z. That instant is
      the zero value of a timestamp, so `ZeroTime` is 0. Seconds may be
      negative: a window computed from the zero time starts before it. */
  type Time = int

  const ZeroTime: Time := 0

  /** A registered user. The service stores whatever the client sends; no
      field is checked, and `id` is not required to be unique. */
  datatype User = User(
    id: string,
    name: string,
    dateOfBirth: string,
    phoneNumber: string,
    emailAddress: string,
    creationTimestamp: Time
  )

  /** An undirected proximity event between two users, stored with two fixed
      slots. Neither id has to name an existing user. */
  datatype Contact = Contact(
    userIdOne: string,
    userIdTwo: string,
    timeOfContact: Time
  )
}
