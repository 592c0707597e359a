/** Types that several components share. */
module Types {

  datatype Option<+T> = None | Some(value: T)

  type Positive = x: int | 0 < x witness 1
}
