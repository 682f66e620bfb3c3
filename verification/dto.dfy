/** The records decoded from the remote source's JSON lists. */
module Dto {

  /** One author as received from the network: `{id, name}`. */
  datatype UserDTO = UserDTO(id: int, name: string)

  /** One post as received from the network; it carries no like state. */
  datatype PostDTO = PostDTO(userId: int, id: int, title: string, body: string)
}
