/** `User`: an immutable record; unlike `Film` its id is supplied by the
    caller. */
module UserModel {
  import opened JavaLang

  datatype User = User(
    id: Long,
    email: string,
    login: string,
    name: string,
    birthday: JavaDate)
}
