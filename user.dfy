/** A login account: a username and a plaintext password. */
module UserModel {
  datatype User = User(username: string, password: string)
}
