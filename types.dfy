/** The records shared by the components (types.ts). A JavaScript `null`
    or `undefined` is `None`. */
module Types {

  datatype Option<+T> = None | Some(value: T)

  datatype Result<+R, +E> = Success(value: R) | Failure(error: E)

  /** One row of the prompt editor (types.ts:2-5). */
  datatype Prompt = Prompt(id: int, value: string)

  /** One row of the results table (types.ts:7-12). */
  datatype GeneratedImage = GeneratedImage(
    prompt: string,
    imageUrl: Option<string>,
    error: Option<string>,
    isLoading: bool)

  /** The uploaded image (types.ts:14-18). types.ts declares `base64` a
      string, but the uploader stores whatever `split(',')[1]` yields, which
      is `undefined` (here `None`) for a string without a comma. */
  datatype ImageFile = ImageFile(base64: Option<string>, mimeType: string, name: string)
}
