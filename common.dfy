/** Shared vocabulary of the Pinterest search command: identifiers, the
    optional value used for absent results, and the messages the command sends. */
module Common {

  type Url = string
  type UserId = string
  type MessageId = string

  datatype Option<+T> = None | Some(value: T)

  /** One slot of a page handed to the compositor: the URL and its position
      in the full result list (`originalIndex`). */
  datatype ImageObject = ImageObject(url: Url, originalIndex: nat)

  /** Where the compositor drew a decoded tile: its column, the ordinal shown
      on its badge and the result-list index it stands for. */
  datatype Placement = Placement(column: nat, badge: nat, sourceIndex: nat)

  /** The outgoing replies, one constructor per message the command can send.
      Attachments are represented by the URL they were fetched from, and a
      rendered grid by the placements drawn on it. */
  datatype Message =
    | AskForQuery                                  // "Please provide a search query."
    | Searching                                    // "Searching Pinterest..."
    | SearchFailed                                 // "Pinterest search failed."
    | NoImages(query: string)                      // "No images found for ..."
    | DirectImages(query: string, attachments: seq<Url>)
    | CanvasPage(query: string, page: nat, totalPages: nat, tiles: seq<Placement>)
    | LastPageNotice                               // "You are already on the last page."
    | InvalidNumber                                // "Invalid image number."
    | FetchFailed                                  // "Failed to fetch image."
    | SelectedImage(ordinal: nat, query: string, attachment: Url)
    | UsageHint                                    // "Reply with a number (from canvas) or \"next\"."
}
