/** Shared value wrappers. `None` stands for a Java `null` (or a JavaScript
    `null`/`undefined`) wherever the source lets a reference be absent. */
module Common {

  datatype Option<+T> = None | Some(value: T)

}
