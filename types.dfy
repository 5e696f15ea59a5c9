/** The records the application passes around (types.ts). */
module Types {
  import opened Wrappers

  datatype Role = RegularUser | Admin

  /** A signed-in account. Time stamps are milliseconds since the epoch. */
  datatype User = User(
    id: string,
    email: string,
    name: string,
    avatar: Option<string>,
    role: Role,
    createdAt: int,
    lastLoginAt: int)

  /**
   * A hosted page. `isPublic` and `allowSourceDownload` are optional because
   * records read back from storage may lack them.
   */
  datatype Site = Site(
    id: string,
    userId: string,
    authorName: string,
    title: string,
    htmlContent: string,
    createdAt: int,
    updatedAt: Option<int>,
    views: int,
    published: bool,
    isPublic: Option<bool>,
    allowSourceDownload: Option<bool>)

  /** A prompt template of the catalogue. */
  datatype Prompt = Prompt(
    id: string,
    title: string,
    content: string,
    category: string,
    tags: seq<string>,
    author: Option<string>,
    isSystem: Option<bool>)

  /** What the editor hands to the application when the user saves. */
  datatype SaveRequest = SaveRequest(
    id: Option<string>,
    title: string,
    htmlContent: string,
    isPublic: bool,
    allowSourceDownload: bool)

  /** The top-level screens. */
  datatype ViewState = Landing | Dashboard | Editor | Viewer | AdminView | Prompts
}
