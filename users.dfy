/** The identity a verified token carries. */
module Users {

  /** User ids travel as strings: in the token payload, in inbound messages
      and in the history route's path parameter. */
  type UserId = string

  /** The `{userId, username}` payload of a verified token. */
  datatype Identity = Identity(userId: UserId, username: string)
}
