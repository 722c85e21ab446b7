/** The AI chat sidebar (`AiChatSidebar`): the context it derives from the
    current route, the text and welcome message shown for that context, and
    how sending a message changes the conversation. The chat service is not
    called here: sending returns the request, and its reply (or failure) is
    handed back to `FinishSend`. */
module ChatSidebar {

  import opened Wrappers
  import opened Text
  import opened Types
  import opened UniversityList

  datatype Role = User | Assistant

  /** What `sendChatMessage` is given: the trimmed message and the page's
      context. */
  datatype ChatRequest = ChatRequest(message: string, context: ChatContext)

  datatype Message = Message(role: Role, content: string)

  /** `IChatContext`: the page the user is on. */
  datatype ChatContext =
    | UniversityPage(university: Option<University>)
    | ComparePage
    | HomePage

  /** The route: the `id` parameter, if the route has one, and the path. */
  datatype Route = Route(id: Option<string>, pathname: string)

  const ComparePath: string := "/compare"
  const CompareText: string := "Страница сравнения"
  const HomeText: string := "Главная страница / Каталог"
  const ViewingPrefix: string := "Просмотр: "
  const DefaultWelcome: string := "Привет! Я AI Advisor. Чем могу помочь?"
  const UniversityWelcomeStart: string := "Привет! Я вижу, что вы просматриваете информацию о "
  const UniversityWelcomeEnd: string :=
    ". Могу ответить на вопросы о стоимости, программах, общежитии и многом другом. Что вас интересует?"
  const CompareWelcome: string :=
    "Привет! Вы на странице сравнения университетов. Могу помочь с анализом и выбором. Что вас интересует?"
  const SendFailed: string := "Извините, произошла ошибка. Попробуйте еще раз."

  /** Where `list.find(u => u.id === id)` stops: the first entry with that
      id. */
  function FirstWithId(list: seq<University>, id: string): (r: Option<nat>)
    ensures r.None? <==> !HasId(list, id)
    ensures r.Some? ==> r.value < |list| && list[r.value].id == id
    ensures r.Some? ==> forall j :: 0 <= j < r.value ==> list[j].id != id
  {
    if list == [] then None
    else if list[0].id == id then Some(0)
    else
      assert forall i :: 1 <= i < |list| ==> list[i] == list[1..][i - 1];
      match FirstWithId(list[1..], id)
      case None => None
      case Some(k) => Some(k + 1)
  }

  /** `list.find(u => u.id === id)`. */
  function FindUniversity(list: seq<University>, id: string): (r: Option<University>)
    ensures r.None? <==> !HasId(list, id)
    ensures r.Some? ==> r.value in list && r.value.id == id
    ensures r.Some? ==> r.value == list[FirstWithId(list, id).value]
  {
    match FirstWithId(list, id)
    case None => None
    case Some(i) => Some(list[i])
  }

  /** `getContext`: an `id` route parameter (a non-empty one) gives the
      university page, carrying the catalogue entry with that id if there is
      one; otherwise the path `/compare` gives the comparison page, and
      anything else the home page. */
  function GetContext(route: Route, catalog: seq<University>): (c: ChatContext)
    ensures c.UniversityPage? <==> route.id.Some? && route.id.value != []
    ensures c.UniversityPage? && c.university.Some? ==>
              c.university.value in catalog && c.university.value.id == route.id.value
    ensures c.UniversityPage? && c.university.None? ==> !HasId(catalog, route.id.value)
    ensures c.ComparePage? <==> !c.UniversityPage? && route.pathname == ComparePath
    ensures c.HomePage? <==> !c.UniversityPage? && route.pathname != ComparePath
  {
    if route.id.Some? && route.id.value != [] then UniversityPage(FindUniversity(catalog, route.id.value))
    else if route.pathname == ComparePath then ComparePage
    else HomePage
  }

  /** A university page with its catalogue entry. */
  predicate KnownUniversity(c: ChatContext) {
    c.UniversityPage? && c.university.Some?
  }

  /** `getContextText`: the home text for the home page and for a university
      page without an entry, the comparison text exactly for the comparison
      page, and the university's name after the prefix otherwise. */
  function ContextText(c: ChatContext): (r: string)
    ensures r == HomeText <==> !KnownUniversity(c) && !c.ComparePage?
    ensures r == CompareText <==> c.ComparePage?
    ensures KnownUniversity(c) ==> r == ViewingPrefix + c.university.value.name
  {
    if KnownUniversity(c) then
      var r := ViewingPrefix + c.university.value.name;
      assert r[0] != HomeText[0] && r[0] != CompareText[0];
      r
    else if c.ComparePage? then CompareText
    else HomeText
  }

  /** The message the welcome effect posts: the generic greeting, the
      comparison greeting, or one naming the university, in the same cases
      as the context line. */
  function WelcomeText(c: ChatContext): (r: string)
    ensures r == DefaultWelcome <==> !KnownUniversity(c) && !c.ComparePage?
    ensures r == CompareWelcome <==> c.ComparePage?
    ensures KnownUniversity(c) ==>
      r == UniversityWelcomeStart + c.university.value.name + UniversityWelcomeEnd
  {
    if KnownUniversity(c) then
      var r := UniversityWelcomeStart + c.university.value.name + UniversityWelcomeEnd;
      assert |r| > |DefaultWelcome| && |r| > |CompareWelcome|;
      r
    else if c.ComparePage? then CompareWelcome
    else DefaultWelcome
  }

  /** A university page whose id is not in the catalogue reads as the home
      page, in the context line and in the welcome alike. */
  lemma UnknownUniversityAsHome(route: Route, catalog: seq<University>)
    requires route.id.Some? && route.id.value != [] && !HasId(catalog, route.id.value)
    ensures ContextText(GetContext(route, catalog)) == HomeText
    ensures WelcomeText(GetContext(route, catalog)) == DefaultWelcome
  {
  }

  /** The context line and the welcome pick the same case: the generic
      welcome goes exactly with the home text, and the comparison welcome
      exactly with the comparison text. */
  lemma WelcomeMatchesContextText(c: ChatContext)
    ensures ContextText(c) == HomeText <==> WelcomeText(c) == DefaultWelcome
    ensures ContextText(c) == CompareText <==> WelcomeText(c) == CompareWelcome
  {
  }

  class Sidebar {
    var open: bool
    var messages: seq<Message>
    var input: string
    var isLoading: bool

    /** The sidebar starts closed with an empty conversation. */
    constructor ()
      ensures !open && messages == [] && input == [] && !isLoading
    {
      open := false;
      messages := [];
      input := [];
      isLoading := false;
    }

    method SetOpen(value: bool)
      modifies this
      ensures open == value
      ensures messages == old(messages) && input == old(input) && isLoading == old(isLoading)
    {
      open := value;
    }

    /** Typing in the input box. */
    method EditInput(value: string)
      modifies this
      ensures input == value
      ensures open == old(open) && messages == old(messages) && isLoading == old(isLoading)
    {
      input := value;
    }

    /** The welcome effect: in an open sidebar with no messages yet, one
        assistant message for the context; otherwise nothing changes. */
    method Welcome(c: ChatContext)
      modifies this
      ensures old(open && messages == []) ==> messages == [Message(Assistant, WelcomeText(c))]
      ensures !old(open && messages == []) ==> messages == old(messages)
      ensures old(messages) <= messages
      ensures open == old(open) && input == old(input) && isLoading == old(isLoading)
    {
      if open && |messages| == 0 {
        messages := [Message(Assistant, WelcomeText(c))];
      }
    }

    /** `handleSend` up to the request, on the page whose context is `c`:
        input that is only white space, or a reply still awaited, changes
        nothing and sends nothing; otherwise the trimmed input is posted as
        the user's message and sent with the context, the box is cleared and
        the sidebar waits. */
    method BeginSend(c: ChatContext) returns (request: Option<ChatRequest>)
      modifies this
      ensures request.None? <==> old(AllSpace(input) || isLoading)
      ensures request.None? ==>
        messages == old(messages) && input == old(input) && isLoading == old(isLoading)
      ensures request.Some? ==>
        request.value == ChatRequest(Trim(old(input)), c) && request.value.message != []
        && messages == old(messages) + [Message(User, request.value.message)]
        && input == [] && isLoading
      ensures old(messages) <= messages
      ensures open == old(open)
    {
      var text := Trim(input);
      if text == [] || isLoading {
        return None;
      }
      messages := messages + [Message(User, text)];
      input := [];
      isLoading := true;
      request := Some(ChatRequest(text, c));
    }

    /** The rest of `handleSend`: the reply, or the fixed apology if the
        request failed, is posted as one assistant message, and the wait
        ends. */
    method FinishSend(reply: Option<string>)
      modifies this
      ensures reply.Some? ==> messages == old(messages) + [Message(Assistant, reply.value)]
      ensures reply.None? ==> messages == old(messages) + [Message(Assistant, SendFailed)]
      ensures old(messages) <= messages
      ensures !isLoading && open == old(open) && input == old(input)
    {
      var content := if reply.Some? then reply.value else SendFailed;
      messages := messages + [Message(Assistant, content)];
      isLoading := false;
    }
  }

  /** A conversation on the comparison page: the welcome, one question
      asked while another is refused, and the answer, each appended in turn. */
  method CompareConversation(question: string, answer: string)
    requires !AllSpace(question)
  {
    var sidebar := new Sidebar();
    var context := GetContext(Route(None, ComparePath), []);
    sidebar.Welcome(context);
    assert sidebar.messages == [];
    sidebar.SetOpen(true);
    sidebar.Welcome(context);
    assert sidebar.messages == [Message(Assistant, CompareWelcome)];
    sidebar.EditInput(question);
    var request := sidebar.BeginSend(context);
    assert request == Some(ChatRequest(Trim(question), ComparePage));
    sidebar.EditInput(question);
    var refused := sidebar.BeginSend(context);
    assert refused.None?;
    sidebar.FinishSend(Some(answer));
    assert sidebar.messages == [Message(Assistant, CompareWelcome), Message(User, Trim(question)),
                                Message(Assistant, answer)];
    assert !sidebar.isLoading;
  }
}
