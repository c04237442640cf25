/** The .NET exceptions thrown by the modelled code, with the messages it builds. */
module Exceptions {

  datatype Exception =
    | CustomAttributeFormatException(message: string)
    | ArgumentException(message: string)
    | FileNotFoundException(message: string, fileName: string)
    | DllNotFoundException(message: string)
    | InvalidOperationException(message: string)
    | FileLoadException(message: string)
}
