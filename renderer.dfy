/**
 * The renderers of src/renderer.rs: each turns the captures of a matched
 * route into a response.  Handlebars (the "layout" template and the
 * templates registered by name) and serde_json are foreign code, so they
 * enter as function values: the properties below hold for every layout,
 * template and serialiser, and so say which title and body are handed to
 * them and which status and content type come back.
 */
module Renderers {
  import opened Wrappers
  import opened Text
  import opened PathMatching

  /** APP_TITLE (src/main.rs), shown in every page title. */
  const AppTitle: Text := Ascii("My App")

  /** The separator `format!("{} - {}", ...)` puts between app title and page name. */
  const TitleSeparator: Text := Ascii(" - ")

  /** An HTTP status code (iron::status::Status). */
  type Status = nat

  const StatusOk: Status := 200
  const BadRequest: Status := 400
  const NotFound: Status := 404
  const InternalServerError: Status := 500

  /** The three `ContentType` headers the renderers set: html(), json() and plaintext(). */
  datatype ContentType = TextHtml | ApplicationJson | TextPlain

  datatype Response = Response(status: Status, contentType: ContentType, body: Text)

  /** An `IronError`: a description, and the response Iron sends for it. */
  datatype IronError = IronError(description: Text, response: Response)

  /** What `Renderer::render` and `handle` return. */
  type IronResult = Result<Response, IronError>

  /** The request parameters (params::Map), flattened to text values. */
  type Params = map<Text, Text>

  /**
   * The Handlebars registry: `layout(title, body)` renders "layout" on a
   * LayoutPage, `render(name, value)` renders the template registered as
   * `name` on a translated value.
   */
  datatype Templates<!V> = Templates(layout: (Text, Text) -> Text, render: (Text, V) -> Text)

  /** Errors from the translation. */
  datatype TranslatorError = ParameterError(message: Text) | TranslationError(message: Text)

  /** A Translator: captures to a value of type V, or an error. */
  type Translator<V> = Captures -> Result<V, TranslatorError>

  /** The implementations of the `Renderer` trait. */
  datatype Renderer<!V> =
      /** StaticRenderer(name, content) */
    | Static(name: Text, content: Text)
      /** A boxed Translator used as a Renderer, with serde_json::to_string for its value type */
    | Json(translator: Translator<V>, serialize: V -> Result<Text, Text>)
      /** TranslatorRenderer(name, template, translator) */
    | Page(name: Text, template: Text, translator: Translator<V>)
      /** Any other Renderer an application registers */
    | Custom(handler: (Captures, Params, Templates<V>, nat) -> IronResult)

  /** `format!("{} - {}", APP_TITLE, name)`. */
  function PageTitle(name: Text): Text
  {
    AppTitle + TitleSeparator + name
  }

  /** `render_ok`: the layout on {title, body}, 200, HTML. */
  function RenderOk<V>(templates: Templates<V>, title: Text, body: Text): (r: Response)
    ensures r.status == StatusOk && r.contentType == TextHtml
    ensures r.body == templates.layout(title, body)
  {
    Response(StatusOk, TextHtml, templates.layout(title, body))
  }

  /** `render_error`: the layout on {APP_TITLE, body}, the given status, HTML. */
  function RenderError<V>(templates: Templates<V>, body: Text, status: Status): (r: Response)
    ensures r.status == status && r.contentType == TextHtml
    ensures r.body == templates.layout(AppTitle, body)
  {
    Response(status, TextHtml, templates.layout(AppTitle, body))
  }

  /**
   * An error page is the layout page of `render_ok` under the bare app
   * title, with the status replaced.
   */
  lemma ErrorPageIsAppTitledPage<V>(templates: Templates<V>, body: Text, status: Status)
    ensures RenderError(templates, body, status) == RenderOk(templates, AppTitle, body).(status := status)
    ensures RenderError(templates, body, status).status == status
    ensures RenderError(templates, body, status).contentType == TextHtml
  {
  }

  /**
   * The plain-text response both translator-backed renderers give for a
   * translator error: the message, 400 for a parameter error and 500 for a
   * translation error.
   */
  function ErrorResponse(e: TranslatorError): (r: Response)
    ensures r.contentType == TextPlain && r.body == e.message
    ensures r.status == BadRequest <==> e.ParameterError?
    ensures r.status == InternalServerError <==> e.TranslationError?
  {
    match e
    case ParameterError(msg) => Response(BadRequest, TextPlain, msg)
    case TranslationError(msg) => Response(InternalServerError, TextPlain, msg)
  }

  /** `StaticRenderer::render`. */
  function RenderStatic<V>(name: Text, content: Text, templates: Templates<V>): (r: Response)
    ensures r.status == StatusOk && r.contentType == TextHtml
    ensures r.body == templates.layout(PageTitle(name), content)
  {
    RenderOk(templates, PageTitle(name), content)
  }

  /**
   * `render` of a boxed Translator: the serialised value as JSON, or a
   * plain-text error: 400 exactly for a parameter error, 500 for a
   * translation error or a value that does not serialise.
   */
  function RenderJson<V>(translator: Translator<V>, serialize: V -> Result<Text, Text>, captures: Captures): (r: Response)
    ensures r.status == StatusOk <==> translator(captures).Ok? && serialize(translator(captures).value).Ok?
    ensures r.status == StatusOk ==> r.contentType == ApplicationJson && r.body == serialize(translator(captures).value).value
    ensures r.status != StatusOk ==> r.contentType == TextPlain
    ensures r.status == BadRequest <==> translator(captures).Err? && translator(captures).error.ParameterError?
    ensures translator(captures).Ok? && serialize(translator(captures).value).Err? ==>
      r == Response(InternalServerError, TextPlain, serialize(translator(captures).value).error)
    ensures translator(captures).Err? ==> r == ErrorResponse(translator(captures).error)
  {
    match translator(captures)
    case Ok(data) =>
      (match serialize(data)
       case Ok(s) => Response(StatusOk, ApplicationJson, s)
       case Err(description) => Response(InternalServerError, TextPlain, description))
    case Err(e) => ErrorResponse(e)
  }

  /**
   * `TranslatorRenderer::render`: the named template rendered on the value,
   * inside the layout under the page title; or the plain-text error.
   */
  function RenderPage<V>(name: Text, template: Text, translator: Translator<V>, captures: Captures,
                         templates: Templates<V>): (r: Response)
    ensures r.status == StatusOk <==> translator(captures).Ok?
    ensures r.status == StatusOk ==>
      && r.contentType == TextHtml
      && r.body == templates.layout(PageTitle(name), templates.render(template, translator(captures).value))
    ensures r.status != StatusOk ==> r.contentType == TextPlain && r.body == translator(captures).error.message
    ensures r.status == BadRequest <==> translator(captures).Err? && translator(captures).error.ParameterError?
    ensures translator(captures).Err? ==> r == ErrorResponse(translator(captures).error)
  {
    match translator(captures)
    case Ok(body) => RenderOk(templates, PageTitle(name), templates.render(template, body))
    case Err(e) => ErrorResponse(e)
  }

  /**
   * `Renderer::render(captures, params, templates, depth)`, dispatched on the
   * renderer.  The built-in renderers never fail: they answer 200, 400 or
   * 500, and a plain-text body exactly when the status is not 200.
   */
  function Render<V>(renderer: Renderer<V>, captures: Captures, params: Params, templates: Templates<V>,
                     depth: nat): (r: IronResult)
    ensures !renderer.Custom? ==> r.Ok?
    ensures !renderer.Custom? ==> r.value.status in {StatusOk, BadRequest, InternalServerError}
    ensures !renderer.Custom? ==> (r.value.status == StatusOk <==> r.value.contentType != TextPlain)
  {
    match renderer
    case Static(name, content) => Ok(RenderStatic(name, content, templates))
    case Json(translator, serialize) => Ok(RenderJson(translator, serialize, captures))
    case Page(name, template, translator) => Ok(RenderPage(name, template, translator, captures, templates))
    case Custom(handler) => handler(captures, params, templates, depth)
  }

  /**
   * The built-in renderers read neither the request parameters nor the
   * depth, and a static page does not read the captures either.
   */
  lemma BuiltinIgnoresRequest<V>(renderer: Renderer<V>, c1: Captures, c2: Captures, p1: Params, p2: Params,
                                 templates: Templates<V>, d1: nat, d2: nat)
    requires !renderer.Custom?
    ensures Render(renderer, c1, p1, templates, d1) == Render(renderer, c1, p2, templates, d2)
    ensures renderer.Static? ==> Render(renderer, c1, p1, templates, d1) == Render(renderer, c2, p2, templates, d2)
  {
  }

  /** The JSON and the page renderer answer a translator error identically. */
  lemma TranslatorErrorsAgree<V>(translator: Translator<V>, serialize: V -> Result<Text, Text>, name: Text,
                                 template: Text, captures: Captures, templates: Templates<V>)
    requires translator(captures).Err?
    ensures RenderJson(translator, serialize, captures) == RenderPage(name, template, translator, captures, templates)
    ensures RenderJson(translator, serialize, captures) == ErrorResponse(translator(captures).error)
  {
  }

  /**
   * A page title is never the title of an error page, so the layout is
   * never asked for an error page by `render_ok`; and it determines the
   * page name.
   */
  lemma PageTitleInjective(a: Text, b: Text)
    ensures PageTitle(a) != AppTitle
    ensures PageTitle(a) == PageTitle(b) ==> a == b
  {
    var prefix := AppTitle + TitleSeparator;
    if PageTitle(a) == PageTitle(b) {
      assert a == PageTitle(a)[|prefix|..];
    }
  }
}
