/**
  src/repoManager/Models.py: the records the iterator hands out and the
  shapes of a paged result.
 */
module Models {
  import opened Common

  type Bytes = seq<bv8>

  /** One entry: the repo it was read from, its date folder, and the two halves of its folder name. */
  datatype ImagePromptDirectory = ImagePromptDirectory(prompt: string, repo: string, date: string, time: string)

  /** A bookmark to resume paging from; it need not name an existing entry. */
  datatype NextToken = NextToken(prompt: string, repo: string, date: string, time: string)

  datatype ImagePromptResult = ImagePromptResult(prompt: string, repo: string, date: string, time: string, num: int, images: seq<Bytes>)

  datatype GetImagePromptsResult = GetImagePromptsResult(results: seq<ImagePromptResult>, nextToken: Option<NextToken>, errorMessage: Option<string>)
}
