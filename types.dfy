/** The values the views exchange with the web framework: the request as the
    framework has decoded it, the response a view produces, the session bag
    and the rows of the story and user tables. */
module Types {

  datatype Option<+T> = None | Some(value: T)

  // HTTP status codes the views answer with.
  const STATUS_OK := 200
  const STATUS_BAD_REQUEST := 400
  const STATUS_UNAUTHORIZED := 401
  const STATUS_NOT_FOUND := 404
  const STATUS_METHOD_NOT_ALLOWED := 405

  // Session keys and the values the views store under login_status.
  const LOGIN_STATUS_KEY := "login_status"
  const USERNAME_KEY := "username"
  const LOGGED_IN := "logged_in"
  const LOGGED_OUT := "logged_out"

  // Form fields of a login request.
  const FORM_USERNAME := "username"
  const FORM_PASSWORD := "password"

  // Fields of the JSON body of a new story.
  const HEADLINE_KEY := "headline"
  const CATEGORY_KEY := "category"
  const REGION_KEY := "region"
  const DETAILS_KEY := "details"

  // Query parameters of a story listing, and the value meaning "any".
  const STORY_CAT_PARAM := "story_cat"
  const STORY_REGION_PARAM := "story_region"
  const STORY_DATE_PARAM := "story_date"
  const WILDCARD := "*"

  /** The per-client session bag; a key may be absent. */
  type SessionBag = map<string, string>

  /** A decoded form, query string or JSON object whose values are strings. */
  type Fields = map<string, string>

  /** The name of any HTTP method other than the three the views compare
      request.method with, so that each method has exactly one encoding. */
  type OtherMethod = m: string | m != "GET" && m != "POST" && m != "DELETE" witness "PUT"

  datatype Verb = Get | Post | Delete | OtherVerb(name: OtherMethod)

  /** The request.method string a verb stands for; each string has exactly
      one verb, so comparing verbs is comparing those strings. */
  function MethodName(v: Verb): (m: string)
    ensures v == Get <==> m == "GET"
    ensures v == Post <==> m == "POST"
    ensures v == Delete <==> m == "DELETE"
    ensures v.OtherVerb? ==> m == v.name
  {
    match v
    case Get => "GET"
    case Post => "POST"
    case Delete => "DELETE"
    case OtherVerb(name) => name
  }

  /** Distinct verbs have distinct method names. */
  lemma MethodNameInjective(v: Verb, w: Verb)
    ensures MethodName(v) == MethodName(w) ==> v == w
  {
  }

  /** A request: its HTTP method, its form fields (request.POST), its query
      parameters (request.GET) and its body already decoded as a JSON object,
      None when the body is not valid UTF-8 JSON of that shape. */
  datatype Request = Request(verb: Verb, form: Fields, query: Fields, body: Option<Fields>)

  /** A row of the story table; dates are day numbers. */
  datatype Story = Story(headline: string, category: string, region: string,
                         details: string, date: int, authorId: nat)

  /** One element of the "stories" array of a listing. */
  datatype Entry = Entry(key: string, headline: string, storyCat: string, storyRegion: string,
                         author: string, storyDate: int, storyDetails: string)

  /** What a view hands back to the framework: a JSON message with a status,
      the JSON list of stories (status 200), nothing at all, or an exception
      the view does not catch. */
  datatype Response =
    | Message(status: int)
    | StoryList(stories: seq<Entry>)
    | NoResponse
    | Error
}
