/** The values the chat server keeps in memory and the events it pushes to
    its clients. */
module ChatTypes {

  datatype Option<+T> = None | Some(value: T)

  /** How a handler ended. `NotFound` stands for an unchecked `find` whose
      miss is dereferenced: the handler stops there, and whatever it had
      already changed stays changed. */
  datatype Outcome<+T> = Done(value: T) | NotFound

  /** A socket, identified by an opaque handle; `username` is unset until the
      client sends `new user`. */
  type ConnId = nat

  datatype Conn = Conn(id: ConnId, username: Option<string>)

  /** A group as the client builds it: `admin` is a name and `users` and
      `bans` are plain lists, so nothing forbids duplicates. */
  datatype Group = Group(name: string, admin: string, users: seq<string>, bans: seq<string>)

  /** One `away` request: `user` said they are away from `group`. */
  datatype AwayMarker = AwayMarker(user: string, group: string)

  /** The outbound events, one constructor per socket.io event name. */
  datatype Msg =
    | GetGroups(groups: seq<Group>)          // 'get groups'
    | GotoMessages(group: string)            // 'goto messages'
    | OtherUserJoined(user: string)          // 'other user joined this group'
    | AskForPermission                       // 'ask for permission'
    | AskedForPermission(user: string, group: string) // 'asked for permission'
    | DenyBecauseOfBan                       // 'deny because of ban'
    | MembersUpdate(users: seq<string>)      // 'me atualizo dos demais do grupo'
    | PermissionAccepted                     // 'permission accepted'
    | PermissionRejected                     // 'permission rejected'
    | NewMessage(msg: string, from: Option<string>) // 'new message' {msg, user}
    | YouHaveBeenKicked                      // 'you have been kicked'
    | YouHaveBeenBanned                      // 'you have been banned'
    | UserAway(user: string)                 // 'user away'
    | UserNoLongerAway(user: string)         // 'user no longer away'
    | TargetIsAway(user: string)             // 'target is away'

  /** One `emit`: the socket it goes to and what it carries. */
  datatype Event = Event(to: ConnId, msg: Msg)
}
