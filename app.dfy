/**
 * Model of the two decisions in sampleapp/app.py: the secret-key check
 * that runs before every request, and the choice of template and status
 * made by the error handler, together with the loop that registers that
 * handler for its status codes.
 */
module App {
  import opened Wrappers
  import opened PyStr

  // ---------------------------------------------------------------------
  // check_secret_key
  // ---------------------------------------------------------------------

  /** The shortest secret key accepted outside debug mode. */
  const MinSecretKeyLength := 32

  const DefaultKeyMessage := "SECRET_KEY cannot be default value"
  const ShortKeyMessage := "SECRET_KEY too short"

  /** What the before-request hook does: let the request proceed, or abort it with a response. */
  datatype Gate = Proceed | Abort(status: int, body: string)

  /**
   * `check_secret_key`: in debug mode every key is accepted; otherwise the
   * key may be neither the documented default nor shorter than 32
   * characters, and the default check comes first.
   */
  function CheckSecretKey(debug: bool, key: string, defaultKey: string): (r: Gate)
    ensures r.Proceed? <==> debug || (key != defaultKey && |key| >= MinSecretKeyLength)
    ensures r.Abort? ==> r.status == 500
    ensures r.Abort? ==> (r.body == DefaultKeyMessage <==> key == defaultKey)
  {
    if !debug then
      if key == defaultKey then Abort(500, DefaultKeyMessage)
      else if |key| < MinSecretKeyLength then Abort(500, ShortKeyMessage)
      else Proceed
    else Proceed
  }

  /** In debug mode the check never aborts, whatever the key. */
  lemma DebugNeverAborts(key: string, defaultKey: string)
    ensures CheckSecretKey(true, key, defaultKey) == Proceed
  {
  }

  /**
   * Outside debug mode the default key aborts with the default-value
   * message, even when it is also too short: the default check comes first.
   */
  lemma DefaultKeyAborts(key: string, defaultKey: string)
    requires key == defaultKey
    ensures CheckSecretKey(false, key, defaultKey) == Abort(500, DefaultKeyMessage)
  {
  }

  /** Outside debug mode a non-default key shorter than 32 characters aborts as too short. */
  lemma ShortKeyAborts(key: string, defaultKey: string)
    requires key != defaultKey && |key| < MinSecretKeyLength
    ensures CheckSecretKey(false, key, defaultKey) == Abort(500, ShortKeyMessage)
  {
  }

  // ---------------------------------------------------------------------
  // render_error and its registration
  // ---------------------------------------------------------------------

  /** The status codes the error handler is registered for. */
  const ErrorHandlerCodes: seq<int> := [401, 404, 500]

  /** The error passed to the handler: its `code` attribute, if it has one. */
  datatype HttpError = HttpError(code: Option<int>)

  /** The handler's answer: the template it renders and the status it returns. */
  datatype Rendered = Rendered(template: string, status: int)

  /** Reads the status code back from a template name of the form "<code>.html". */
  function TemplateCode(name: string): Option<int> {
    if |name| >= 5 && name[|name| - 5..] == ".html" then ParseInt(name[..|name| - 5]) else None
  }

  /** `"{0}.html".format(code)`: the code can be read back from the name. */
  function TemplateName(code: int): (name: string)
    ensures TemplateCode(name) == Some(code)
  {
    var s := IntToString(code) + ".html";
    assert s[..|s| - 5] == IntToString(code);
    assert s[|s| - 5..] == ".html";
    s
  }

  /** Distinct codes are rendered with distinct templates. */
  lemma TemplateNameInjective(a: int, b: int)
    requires TemplateName(a) == TemplateName(b)
    ensures a == b
  {
  }

  /**
   * `render_error`: the error's `code`, or 500 when it has none, is both
   * the returned status and the name of the rendered template.
   */
  function RenderError(e: HttpError): (r: Rendered)
    ensures e.code.Some? ==> r.status == e.code.value
    ensures e.code.None? ==> r.status == 500
    ensures r.template == TemplateName(r.status)
    ensures TemplateCode(r.template) == Some(r.status)
  {
    var code := e.code.GetOr(500);
    Rendered(TemplateName(code), code)
  }

  /** An error without a code is rendered with "500.html" and status 500. */
  lemma RenderErrorWithoutCode()
    ensures RenderError(HttpError(None)) == Rendered("500.html", 500)
  {
    assert NatToString(500) == "500";
  }

  /**
   * The part of the Flask application object that `register_errorhandlers`
   * changes: the status codes for which `render_error` is installed.
   */
  class Application {
    var errorHandlers: set<int>

    /** A new application has no error handlers. */
    constructor ()
      ensures errorHandlers == {}
    {
      errorHandlers := {};
    }

    /** `register_errorhandlers`: installs `render_error` for each of 401, 404 and 500. */
    method RegisterErrorHandlers()
      modifies this
      ensures errorHandlers == old(errorHandlers) + {401, 404, 500}
    {
      var codes := ErrorHandlerCodes;
      var i := 0;
      while i < |codes|
        invariant 0 <= i <= |codes|
        invariant errorHandlers == old(errorHandlers) + set c | c in codes[..i]
      {
        assert codes[..i + 1] == codes[..i] + [codes[i]];
        errorHandlers := errorHandlers + {codes[i]};
        i := i + 1;
      }
      assert codes[..i] == [401, 404, 500];
    }
  }

  /** The error handling `create_app` sets up: handlers for exactly the codes 401, 404 and 500. */
  method CreateApp() returns (app: Application)
    ensures fresh(app)
    ensures app.errorHandlers == {401, 404, 500}
  {
    app := new Application();
    app.RegisterErrorHandlers();
  }
}
