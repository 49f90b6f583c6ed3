/**
 * Values that cross the boundary between the extension host, the editor
 * providers and the webviews: resource locations, the providers' error
 * outcomes, and the points of a drawn stroke.
 */
module Host {

  /** One byte of a file's contents (Uint8Array element). */
  newtype byte = x: int | 0 <= x < 256

  datatype Option<+T> = None | Some(value: T)

  /** The errors the providers throw. */
  datatype Error =
    | NoModel               // getModel: no model registered for the resource
    | NoEditors(key: string) // update: no editor set registered for the resource
    | ReadFailed            // reading the resource failed

  /** A method that either completes or throws. */
  datatype Outcome = Ok | Fail(error: Error)

  /** A method that either returns a value or throws. */
  datatype Result<+T> = Success(value: T) | Failure(error: Error)

  /**
   * A resource location (vscode.Uri). `text` is its canonical string form
   * (what toString() yields) and `fsPath` its file-system path; both are
   * computed by the host and are taken here as given components.
   */
  datatype Uri = Uri(scheme: string, path: string, fsPath: string, text: string)

  /** The key under which both registries of a provider file a resource: resource.toString(). */
  function Key(u: Uri): string
  {
    u.text
  }

  /** A point of a freehand stroke, in webview pixel coordinates. */
  datatype Point = Point(x: real, y: real)
}
