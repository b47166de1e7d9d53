/**
 * Values shared by the relay and its clients: the clip record the relay
 * stores and pushes, the push-channel events, and the HTTP error outcomes.
 */
module Protocol {

  datatype Option<+T> = None | Some(value: T)

  /** The `type` field of a clip: "text" or "image". */
  datatype Kind = Text | Image

  /**
   * One synchronised clip. For a text clip `content` is the text itself;
   * for an image clip it is the name of the stored file.
   */
  datatype ClipItem = ClipItem(id: string, kind: Kind, content: string, timestamp: string)

  /** Events pushed to every registered push-channel session. */
  datatype Event =
    | NewClip(item: ClipItem)
    | SystemArmed
    | SystemDisarmed
    | Other(name: string)   // any other event name a client may receive

  /** The HTTP errors the relay raises. */
  datatype HttpError = Unauthorized | Forbidden | BadRequest | NotFound {
    function Code(): (c: int)
      ensures 400 <= c < 500
      ensures this.Unauthorized? ==> c == 401
      ensures this.Forbidden? ==> c == 403
      ensures this.BadRequest? ==> c == 400
      ensures this.NotFound? ==> c == 404
    {
      match this
      case Unauthorized => 401
      case Forbidden => 403
      case BadRequest => 400
      case NotFound => 404
    }
  }

  /** The reply of an endpoint: its value, or the error it raised. */
  datatype Response<+T> = Ok(value: T) | Err(error: HttpError)
}
