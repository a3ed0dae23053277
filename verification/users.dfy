/** The user records of models/users/user_types.go, with the fields the token,
    role and repository code read or write. */
module Users {
  import opened Wrappers
  import opened ObjectIds

  /** `UserLink`. Its `Id` is a JSON number, a float64 in Go; it is an integer here. */
  datatype UserLink = UserLink(id: int, url: string, name: string)

  /** `UserInfo`, the identity a session token carries. `links == None` is a
      nil slice. `profileImageUrl`, `provider`, `city` and `state` are fields no
      token carries. */
  datatype UserInfo = UserInfo(
    id: ObjectId,
    firstName: string,
    lastName: string,
    email: string,
    links: Option<seq<UserLink>>,
    userName: string,
    profileImageUrl: string,
    provider: string,
    city: string,
    state: string)

  /** Go's zero `UserInfo{}`. */
  const NoUserInfo: UserInfo := UserInfo(Zero, "", "", "", None, "", "", "", "", "")

  /** `UserJobLocation`. */
  datatype JobLocation = JobLocation(city: string, state: string, priority: int)

  /** `UserExperice` and `UserTechExperience`, reduced to what identifies them. */
  datatype Experience = Experience(id: int, company: string, position: string)
  datatype TechExperience = TechExperience(id: int, technology: string)

  /** `User`, the `users` document. Dates are `primitive.DateTime` milliseconds;
      `None` stands for a nil slice. */
  datatype User = User(
    id: ObjectId,
    firstName: string,
    lastName: string,
    city: string,
    state: string,
    email: string,
    password: string,
    salt: string,
    createdAt: int,
    isDeleted: bool,
    isEmailConfirmed: bool,
    roles: Option<seq<ObjectId>>,
    lastLogin: int,
    validationToken: string,
    links: Option<seq<UserLink>>,
    experiences: Option<seq<Experience>>,
    techExperiences: Option<seq<TechExperience>>,
    userName: string,
    isPublic: bool,
    profileViews: int,
    jobLocations: Option<seq<JobLocation>>,
    profileImageUrl: string)

  /** Go's zero `User{}`. */
  const NoUser: User := User(Zero, "", "", "", "", "", "", "", 0, false, false, None, 0, "", None, None, None, "", false, 0, None, "")
}
