/** The `UserController` of package `controller.usercontroller`: a map per
    controller instance, and a missing id on replace reported as
    `IdentifierDoesNotExistException` rather than a validation failure. */
module UserControllerInstance {
  import opened JavaLang
  import opened Outcomes
  import opened UserModel
  import Store

  class UserController {
    var data: map<Long, User>

    /** Every key is non-negative and names the user stored under it. */
    ghost predicate Valid()
      reads this
    {
      forall id | id in data :: id >= 0 && data[id].id == id
    }

    constructor ()
      ensures Valid() && data == map[]
    {
      data := map[];
    }

    /** `getAllUsers`: one user per stored entry, each under its own id. */
    method GetAllUsers() returns (users: set<User>)
      requires Valid()
      ensures users == data.Values
      ensures |users| == |data|
      ensures forall u | u in users :: u.id in data && data[u.id] == u
    {
      users := data.Values;
      Store.KeyedValuesDistinct(data, (u: User) => u.id);
    }

    /** `addUser`: negative id first, then an existing id. */
    method AddUser(user: User) returns (result: Result<User>)
      requires Valid()
      modifies this
      ensures Valid()
      ensures user.id < 0 ==> result == Err(ValidationError(NegativeId))
      ensures user.id >= 0 && user.id in old(data) ==> result == Err(ValidationError(IdAlreadyExists))
      ensures result.Err? ==> data == old(data)
      ensures result.Ok? <==> user.id >= 0 && user.id !in old(data)
      ensures result.Ok? ==> result.value == user && data == old(data)[user.id := user]
      ensures result.Ok? ==> |data| == |old(data)| + 1
    {
      var id := user.id;
      if id < 0 {
        return Err(ValidationError(NegativeId));
      }
      if id in data {
        return Err(ValidationError(IdAlreadyExists));
      }
      data := data[id := user];
      result := Ok(data[id]);
    }

    /** `updateUser`: only the existence check. A negative id is never a key,
        so it always ends on that branch. */
    method UpdateUser(user: User) returns (result: Result<User>)
      requires Valid()
      modifies this
      ensures Valid()
      ensures data.Keys == old(data).Keys
      ensures user.id !in old(data) ==> result == Err(IdentifierDoesNotExist) && data == old(data)
      ensures user.id < 0 ==> result == Err(IdentifierDoesNotExist)
      ensures user.id in old(data) ==> result == Ok(user) && data == old(data)[user.id := user]
    {
      var id := user.id;
      if id !in data {
        return Err(IdentifierDoesNotExist);
      }
      data := data[id := user];
      result := Ok(data[id]);
    }
  }
}
