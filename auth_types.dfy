/** The signed-in user as the client holds it and as the auth routes return it: no password. */
module AuthTypes {

  datatype User = User(id: string, username: string, email: string, createdAt: string)
}
