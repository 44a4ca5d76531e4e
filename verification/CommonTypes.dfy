/** Types shared by the models of the four projects. */
module CommonTypes {

  type int32 = x: int | -0x8000_0000 <= x <= 0x7fff_ffff

  datatype Option<T> = None | Some(value: T)
}
