/** The errors the resolver throws, one constructor per `throw new Error(...)`
    that a caller can observe. */
module Failures {

  /** Why `fetchVideoInfo` failed; every cause surfaces under one message prefix. */
  datatype InfoFailure =
    | RequestFailed      // the item-info GET rejected
    | EmptyItemList      // no body, or `item_list` absent or empty
    | NoVideoUrl         // no watermark-free URL could be produced

  datatype Failure =
    | InvalidShareLink                    // the link mentions neither host
    | RedirectFailed                      // the short-link GET failed without a Location
    | PageFetchFailed                     // the HTML page needed for the ID could not be read
    | VideoIdNotFound                     // no ID pattern matched
    | VideoInfoFailed(cause: InfoFailure) // the item-info stage failed
    | VideoNotProcessed                   // the parser service got a video without a watermark-free URL
    | NoVideosParsed                      // the parser service got an empty batch
}
