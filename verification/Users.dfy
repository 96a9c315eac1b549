/**
  The Lab3 user record, as the `user` table stores it and as the client
  displays it.  Every field is text, the salary included.
 */
module Users {

  datatype User = User(
    id: string,
    firstName: string,
    lastName: string,
    groupName: string,
    expectedSalary: string,
    expectedDateOfDefense: string)

  function UserLacksId(id: string): User -> bool {
    (u: User) => u.id != id
  }

  function UserHasId(id: string): User -> bool {
    (u: User) => u.id == id
  }
}
