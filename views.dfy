/** The views as one request-handling object: the session bag of the client
    and the story table change from request to request; the user table, the
    authentication backend and the datastore's date parsing are fixed. */
module Views {
  import opened Types
  import opened Decimal
  import opened Session
  import opened StoryRules

  datatype Handler = GetHandler | PostHandler | NoHandler

  /** The dispatch of the stories view on the HTTP method. */
  function Route(verb: Verb): (h: Handler)
    ensures h == GetHandler <==> verb == Get
    ensures h == PostHandler <==> verb == Post
    ensures h == NoHandler <==> verb != Get && verb != Post
    ensures h == NoHandler <==> MethodName(verb) != "GET" && MethodName(verb) != "POST"
  {
    if verb == Get then GetHandler
    else if verb == Post then PostHandler
    else NoHandler
  }

  class Api {
    var session: SessionBag
    var stories: map<nat, Story>
    const users: map<nat, string>
    const authenticate: (string, string) -> bool
    const parseDate: string -> Option<int>

    /** Usernames are unique and every story's author is a user. */
    ghost predicate Valid()
      reads this
    {
      UniqueUsernames(users) && AuthorsKnown(stories, users)
    }

    constructor (users: map<nat, string>, authenticate: (string, string) -> bool,
                 parseDate: string -> Option<int>, session: SessionBag, stories: map<nat, Story>)
      requires UniqueUsernames(users) && AuthorsKnown(stories, users)
      ensures Valid()
      ensures this.users == users && this.authenticate == authenticate && this.parseDate == parseDate
      ensures this.session == session && this.stories == stories
    {
      this.users := users;
      this.authenticate := authenticate;
      this.parseDate := parseDate;
      this.session := session;
      this.stories := stories;
    }

    method Login(req: Request) returns (r: Response)
      requires Valid()
      modifies this`session
      ensures Valid()
      ensures SessionStep(r, session) == Session.Login(old(session), req.form, authenticate)
    {
      if FORM_USERNAME !in req.form || FORM_PASSWORD !in req.form {
        return Message(STATUS_BAD_REQUEST);
      }
      var username := req.form[FORM_USERNAME];
      var password := req.form[FORM_PASSWORD];
      if authenticate(username, password) {
        session := session[LOGIN_STATUS_KEY := LOGGED_IN];
        session := session[USERNAME_KEY := username];
        return Message(STATUS_OK);
      }
      return Message(STATUS_UNAUTHORIZED);
    }

    method Logout(req: Request) returns (r: Response)
      requires Valid()
      modifies this`session
      ensures Valid()
      ensures SessionStep(r, session) == Session.Logout(old(session))
    {
      if LOGIN_STATUS_KEY !in session {
        return Message(STATUS_BAD_REQUEST);
      }
      if session[LOGIN_STATUS_KEY] == LOGGED_IN {
        session := session[LOGIN_STATUS_KEY := LOGGED_OUT];
        session := session[USERNAME_KEY := ""];
        return Message(STATUS_OK);
      }
      return Message(STATUS_UNAUTHORIZED);
    }

    /** The stories view: GET lists, POST creates, any other method gets no
        response at all. */
    method Stories(req: Request, today: int, newId: nat) returns (r: Response)
      requires Valid() && newId !in stories
      modifies this`stories
      ensures Valid()
      ensures Route(req.verb) == GetHandler ==>
                stories == old(stories) && AnswersGet(req.query, parseDate, stories, users, today, r)
      ensures Route(req.verb) == PostHandler ==>
                StoryStep(r, stories) == StoryRules.PostStory(session, req.body, users, old(stories), today, newId)
      ensures Route(req.verb) == NoHandler ==> r == NoResponse && stories == old(stories)
    {
      match Route(req.verb)
      case GetHandler =>
        r := GetStory(req, today);
      case PostHandler =>
        r := PostStory(req, today, newId);
      case NoHandler =>
        r := NoResponse;
    }

    /** newId is the id the datastore gives the new row. */
    method PostStory(req: Request, today: int, newId: nat) returns (r: Response)
      requires Valid() && newId !in stories
      modifies this`stories
      ensures Valid()
      ensures StoryStep(r, stories) == StoryRules.PostStory(session, req.body, users, old(stories), today, newId)
    {
      if LOGIN_STATUS_KEY !in session || session[LOGIN_STATUS_KEY] != LOGGED_IN {
        return Message(STATUS_UNAUTHORIZED);
      }
      if req.body.None? {
        return Error;
      }
      var body := req.body.value;
      if HEADLINE_KEY !in body || CATEGORY_KEY !in body || REGION_KEY !in body || DETAILS_KEY !in body {
        return Error;
      }
      var headline := body[HEADLINE_KEY];
      var category := body[CATEGORY_KEY];
      var region := body[REGION_KEY];
      var details := body[DETAILS_KEY];
      if USERNAME_KEY !in session {
        return Error;
      }
      UniqueLookup(users, session[USERNAME_KEY]);
      if session[USERNAME_KEY] !in users.Values {
        return Error;
      }
      var author :| author in users && users[author] == session[USERNAME_KEY];
      assert author == AuthorId(users, session[USERNAME_KEY]).value;
      if Validate(headline, category, region, details).Some? {
        return Message(STATUS_BAD_REQUEST);
      }
      stories := stories[newId := Story(headline, category, region, details, today, author)];
      return Message(STATUS_OK);
    }

    method GetStory(req: Request, today: int) returns (r: Response)
      requires Valid()
      ensures AnswersGet(req.query, parseDate, stories, users, today, r)
    {
      if STORY_CAT_PARAM !in req.query || STORY_REGION_PARAM !in req.query || STORY_DATE_PARAM !in req.query {
        return Message(STATUS_BAD_REQUEST);
      }
      var category := req.query[STORY_CAT_PARAM];
      var region := req.query[STORY_REGION_PARAM];
      var storyDate := req.query[STORY_DATE_PARAM];

      var response := stories;
      if category != WILDCARD {
        response := WithCategory(response, category);
      }
      if region != WILDCARD {
        response := WithRegion(response, region);
      }
      if storyDate != WILDCARD {
        var from := parseDate(storyDate);
        if from.None? {
          return Error;
        }
        response := WithDateIn(response, from.value, today);
      }
      assert response == Filtered(stories, ReadFilter(req.query, parseDate).filter, today);

      var output := ListStories(response);
      ListsEmpty(output, response, users);
      if |output| == 0 {
        return Message(STATUS_NOT_FOUND);
      }
      return StoryList(output);
    }

    /** The loop of get_story over the selected rows, taken in whatever order
        the datastore yields them. */
    method ListStories(response: map<nat, Story>) returns (output: seq<Entry>)
      requires AuthorsKnown(response, users)
      ensures Lists(output, response, users)
    {
      output := [];
      var pending := response.Keys;
      ghost var ids: seq<nat> := [];
      while pending != {}
        invariant pending <= response.Keys
        invariant |ids| == |output| && |ids| + |pending| == |response|
        invariant forall i :: 0 <= i < |ids| ==>
                    ids[i] in response && ids[i] !in pending && output[i] == Render(ids[i], response[ids[i]], users)
        invariant forall i, j :: 0 <= i < j < |ids| ==> ids[i] != ids[j]
        invariant forall id :: id in response && id !in pending ==> id in ids
        decreases pending
      {
        var id :| id in pending;
        var story := response[id];
        var author := users[story.authorId];
        var entry := Entry(DecimalString(id), story.headline, story.category, story.region,
                           author, story.date, story.details);
        output := output + [entry];
        ids := ids + [id];
        pending := pending - {id};
      }
      ListsFromIds(output, ids, response, users);
    }

    method DeleteStory(req: Request, id: nat) returns (r: Response)
      requires Valid()
      modifies this`stories
      ensures Valid()
      ensures StoryStep(r, stories) == StoryRules.DeleteStory(req.verb, session, old(stories), id)
    {
      if req.verb != Delete {
        return Message(STATUS_METHOD_NOT_ALLOWED);
      }
      if LOGIN_STATUS_KEY !in session || session[LOGIN_STATUS_KEY] != LOGGED_IN {
        return Message(STATUS_UNAUTHORIZED);
      }
      if id !in stories {
        return Message(STATUS_NOT_FOUND);
      }
      stories := stories - {id};
      return Message(STATUS_OK);
    }
  }
}
