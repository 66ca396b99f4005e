/**
 * processImage: the task body run by a worker for one submitted file.  It
 * does nothing once the cancellation flag is set, and otherwise selects the
 * single action named by the operation string; a string that names no
 * operation selects nothing, as the switch has no default branch.
 */
module Dispatch {
  import opened Wrappers
  import Walk
  import Arguments

  /** The file operation a task performs, with the values it is called with. */
  datatype Action =
    | NoAction
    | ScaleImage(path: Walk.Path, scaleFactor: Option<real>)
    | CreateNegative(path: Walk.Path)
    | RemoveImage(path: Walk.Path)
    | CopyImage(path: Walk.Path, copyDir: Option<string>)

  /** The operation string whose switch case performs `action`. */
  function OperationOf(action: Action): string
    requires !action.NoAction?
  {
    match action
    case ScaleImage(_, _) => "scale"
    case CreateNegative(_) => "negative"
    case RemoveImage(_) => "remove"
    case CopyImage(_, _) => "copy"
  }

  /**
   * processImage for `path`, where `cancelled` is the flag as read when the
   * task starts.
   */
  function ProcessImage(cancelled: bool, path: Walk.Path, operation: string, scaleFactor: Option<real>, copyDir: Option<string>): (action: Action)
    ensures cancelled ==> action == NoAction
    ensures !action.NoAction? <==> !cancelled && operation in Arguments.Operations
    ensures !action.NoAction? ==> OperationOf(action) == operation && action.path == path
    ensures action.ScaleImage? ==> action.scaleFactor == scaleFactor
    ensures action.CopyImage? ==> action.copyDir == copyDir
  {
    if cancelled then NoAction
    else match operation
      case "scale" => ScaleImage(path, scaleFactor)
      case "negative" => CreateNegative(path)
      case "remove" => RemoveImage(path)
      case "copy" => CopyImage(path, copyDir)
      case _ => NoAction
  }

  /**
   * For a configuration main accepts, a task that starts before cancellation
   * always performs its configured operation, and scale and copy always have
   * the value they need: the empty default of the switch is never reached.
   */
  lemma ParsedConfigDispatches(args: seq<string>, parseDouble: string -> Option<real>, config: Arguments.Config, path: Walk.Path)
    requires Arguments.Parse(args, parseDouble) == Ok(config)
    ensures var action := ProcessImage(false, path, config.operation, config.scaleFactor, config.copyDir);
      && !action.NoAction?
      && OperationOf(action) == config.operation
      && (action.ScaleImage? ==> action.scaleFactor.Some?)
      && (action.CopyImage? ==> action.copyDir.Some?)
  {
    Arguments.ParsedConfigIsComplete(args, parseDouble, config);
  }
}
