/** Values shared by every component. */
module Outcomes {

  /**
   The C++ exception classes the components throw. `Overread` is none of them: it stands for a
   read past the end of a buffer that the source does not check, after which nothing is said.
   */
  datatype Exception =
    | InvalidArgument
    | RuntimeError
    | OutOfRange
    | CvException
    | FaissException
    | Overread

  /** A call that may throw: its value, or the exception that left it. */
  datatype Result<+T> = Ok(value: T) | Err(error: Exception)

  datatype Option<+T> = None | Some(value: T)

  /** A `std::vector` that a callee appends to through a reference. */
  class Vector<T> {
    var items: seq<T>

    constructor ()
      ensures items == []
    {
      items := [];
    }

    method PushBack(x: T)
      modifies this
      ensures items == old(items) + [x]
    {
      items := items + [x];
    }
  }
}

module Geometry {
  datatype Point = Point(x: real, y: real)

  /** `cv::Rect2f`: top-left corner and extents. Extents may be negative. */
  datatype Rect = Rect(x: real, y: real, width: real, height: real)
}
