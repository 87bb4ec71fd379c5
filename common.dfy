/** Values shared by the edit session, the editor panels and the image service. */
module Common {

  datatype Option<+T> = None | Some(value: T)

  /** A browser `File`: its name, its `type` (the MIME tag, possibly empty) and
      an opaque identity for its bytes. For a file rebuilt from a data URL the
      identity is that data URL. */
  datatype File = File(name: string, mime: string, source: string)

  /** What a failed `await` rejects with: an `Error` object carrying a message,
      or any other value. */
  datatype Thrown = ErrorObject(message: string) | NonError

  /** The settled result of one call to the external edit function: the data URL
      of the produced image, or the value the call threw. */
  datatype Outcome = Returned(image: string) | Threw(thrown: Thrown)

  /** The editor mode chosen in the panel. */
  datatype Mode = Avatar | Professional | Product | Combine

  /** JavaScript truthiness of a nullable string: `null` and `""` are falsy. */
  predicate Truthy(s: Option<string>) {
    s.Some? && s.value != ""
  }
}
