/** Values shared by every variant of the similarity engine. */
module Base {

  /** A similarity ratio, as returned by `difflib.SequenceMatcher.ratio()`:
      a real number between 0 and 1. */
  type Ratio = r: real | 0.0 <= r <= 1.0

  datatype Option<T> = None | Some(value: T)

  /** The Python exceptions the engine can raise on its own inputs. */
  datatype Error = IndexError | ZeroDivisionError

  datatype Result<T> = Ok(value: T) | Err(error: Error)

  /** One matched pair: unit `i` of file A, unit `j` of file B and their score. */
  datatype Match = Match(i: nat, j: nat, score: real)
}
