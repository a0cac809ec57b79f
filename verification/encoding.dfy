/** The password encoder, kept abstract. The application uses an adaptive salted hash; the model
    passes the two operations in as values and assumes nothing about them. */
module Encoding {

  datatype PasswordEncoder = PasswordEncoder(
    encode: string -> string,
    matches: (string, string) -> bool)
}
