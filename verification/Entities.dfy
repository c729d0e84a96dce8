/** Values shared by the handlers. */
module Entities {

  type Id = string

  datatype Option<+T> = None | Some(value: T)

  // The identity of a thread
  datatype Tid = Tid(number: nat)

  // A row of the searching list
  datatype UserInfo = UserInfo(id: Id, login: string, name: string)

  // The status codes the modelled handlers answer with
  datatype Status =
    | Okey
    | InvalidCommand
    | InvalidOffsetValue
    | InvalidLimitValue
    | ExistingLogin
    | InvalidLogin
    | InvalidPassword
    | InvalidProfileData
    | NonexistentRequest
    | ImpossibleToCreateRequest
    | NonexistentContact
    | InvalidChatName
    | JoinedChatsLimitExceeded
    | NonexistentChat
    | NotAParticipant
    | AlreadyInChat
    | ImpossibleAddToPrivateChat
    | ChatParticipantsLimitExceeded
    | TextMessageTooLarge
    | FileTooLarge
    | InternalServerError

  // What the server keeps for a logged-in client; results are numbered search results
  class ClientSession {
    const nativeToken: Id
    var login: string
    var query: string
    var results: map<int, UserInfo>

    constructor (nativeToken: Id, login: string)
      ensures this.nativeToken == nativeToken && this.login == login && query == "" && results == map[]
    {
      this.nativeToken, this.login, query, results := nativeToken, login, "", map[];
    }
  }

  const TWO_TO_THE_31 := 0x8000_0000
  const TWO_TO_THE_64 := 0x1_0000_0000_0000_0000
}
