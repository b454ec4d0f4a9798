# Configuration and request guards of the Flask sample application

This project models, in Dafny, the parts of the sample application's
`sampleapp` package that contain rules rather than framework glue:

- `asbool` (sampleapp/utils.py) reads a configuration value as a boolean.
  A string is stripped of whitespace and lower-cased, then looked up among
  the words for true ("true", "yes", "on", "y", "t", "1") and for false
  ("false", "no", "off", "n", "f", "0"). Any other string raises
  `ValueError`. Every value that is not a string is read by its truthiness.
- `is_safe_url` (sampleapp/utils.py) is the open-redirect guard that the
  login and register views apply to their `next` parameter. The target is
  joined onto the host URL with `urljoin`. It is safe when the result uses
  http or https and has the host's authority (network location).
- `check_secret_key` (sampleapp/app.py) runs before every request. Outside
  debug mode it aborts with status 500 when `SECRET_KEY` is the default
  value, and otherwise when the key is shorter than 32 characters.
- `render_error` (sampleapp/app.py) answers an HTTP error. It uses the
  error's `code`, or 500 when there is none, as the status and renders the
  template `<code>.html`. `register_errorhandlers` installs it for 401, 404 and 500.

Files:

- `wrappers.dfy`: `Option` and `Result`.
- `pystr.dfy`: the Python string built-ins the core uses. These are
  `str.strip()` (`Strip`), `str.lower()` (`Lower`) and decimal rendering of
  integers (`IntToString`), with a decimal parser (`ParseInt`) as its
  inverse.
- `utils.dfy`: `AsBool`, `Join` (the scheme and authority of `urljoin`) and
  `IsSafeUrl`, with their lemmas.
- `app.dfy`: `CheckSecretKey`, `RenderError` and the `Application` class
  whose `RegisterErrorHandlers` method models the registration loop.

A URL is modelled as the record that `urlparse` returns (scheme, network
location, and the rest), with the empty string for an absent part. `Join`
follows section 5.2.2 of RFC 3986 for scheme and authority, in the
non-strict form that Python's `urljoin` uses. In that form a reference
that repeats the base's scheme counts as having no scheme. An empty
authority counts as absent. `request.host_url` and `DEFAULT_SECRET_KEY`
are explicit parameters.

## Model

| member | source | states |
|---|---|---|
| `PyStr.IsSpace` | sampleapp/utils.py:14 | Python's whitespace set for `str.strip()`: space, tab, newline and carriage return are whitespace, no ASCII letter or digit is |
| `PyStr.Strip` | sampleapp/utils.py:14 | the stripped string is the slice of the input that starts after the leading whitespace; everything before and after it is whitespace, and it has no whitespace at either end |
| `PyStr.StripFrames` | sampleapp/utils.py:14 | the input is the stripped string with whitespace before it and whitespace after it |
| `PyStr.StripPadded` | sampleapp/utils.py:14 | stripping a non-blank, trimmed string framed by any whitespace gives back exactly that string |
| `PyStr.StripBlank` | sampleapp/utils.py:14 | a whitespace-only string strips to the empty string |
| `PyStr.Lower` | sampleapp/utils.py:14 | lower-casing keeps the length and maps each character on its own |
| `PyStr.LowerChar` | sampleapp/utils.py:14 | a capital becomes the lower-case letter at the same position of the alphabet and every other character is kept; so the result is never an ASCII capital and is whitespace exactly when the original is |
| `PyStr.StripLowerIdempotent` | sampleapp/utils.py:14 | stripping and lower-casing a second time changes nothing |
| `PyStr.IntToString` | sampleapp/app.py:70 | the decimal rendering of any integer is non-empty and reads back as that integer |
| `PyStr.IntToStringInjective` | sampleapp/app.py:70 | distinct integers have distinct decimal renderings |
| `Utils.Truthy` | sampleapp/utils.py:20 | `bool(obj)` is false exactly for "", False, 0, b"" and None |
| `Utils.Normalise` | sampleapp/utils.py:14 | the normalised string is no longer than the input, has no whitespace at either end and no ASCII capital |
| `Utils.Lookup` | sampleapp/utils.py:15-19 | a normalised string found in a word set gives that set's value; one in neither set raises the error whose message quotes it |
| `Utils.AsBool` | sampleapp/utils.py:7-20 | only a string can be rejected |
| `Utils.WordsDisjoint` | sampleapp/utils.py:15-18 | no word is both a true word and a false word, so the order of the two look-ups does not matter |
| `Utils.WordsAreTrimmed` | sampleapp/utils.py:15-18 | every word is non-empty and has no whitespace at its ends |
| `Utils.LookupWords` | sampleapp/utils.py:15-19 | the look-up is `Ok(true)` exactly for true words, `Ok(false)` exactly for false words, and an error exactly for every other string |
| `Utils.AsBoolNormalised` | sampleapp/utils.py:13-14 | `asbool(s) == asbool(s.strip().lower())` for every string |
| `Utils.AsBoolSpellsWord` | sampleapp/utils.py:13-18 | a string read as `b` is a word for `b` in some ASCII case, framed by whitespace |
| `Utils.WordSpelledAsBool` | sampleapp/utils.py:13-18 | a word for `b` in any ASCII case, framed by any whitespace, is read as `b` |
| `Utils.AsBoolSpells` | sampleapp/utils.py:13-18 | both directions: a string is read as `b` if and only if it is a word for `b` up to ASCII case and surrounding whitespace |
| `Utils.AsBoolRejects` | sampleapp/utils.py:19 | a string is rejected if and only if it spells no word of either set |
| `Utils.AsBoolRejectsBlank` | sampleapp/utils.py:19 | the empty string and whitespace-only strings raise the error, with the empty normalised value in the message |
| `Utils.AsBoolNonString` | sampleapp/utils.py:20 | every non-string is read by its truthiness and never rejected, so a bool comes back unchanged |
| `Utils.AsBoolIdempotent` | sampleapp/utils.py:20 | `asbool(asbool(x)) == asbool(x)` whenever `asbool(x)` succeeds |
| `Utils.AsBoolPaddedYes` | sampleapp/utils.py:13-16 | "  Yes\n" is read as true |
| `Utils.AsBoolMaybe` | sampleapp/utils.py:19 | "Maybe" is rejected, and the message quotes the normalised "maybe" |
| `Utils.AsBoolBytesFalse` | sampleapp/utils.py:13-20 | bytes are not parsed: the non-empty `b"false"` is read as true |
| `Utils.Join` | sampleapp/utils.py:32 | a missing target joins to the host; the joined scheme is the target's when it names one, else the host's; a named authority is kept |
| `Utils.IsSafeUrl` | sampleapp/utils.py:23-33 | the guard in the target's own terms. A missing target is safe iff the host is http(s). A target with no scheme, or the host's scheme, is safe iff the host is http(s) and the target names no other authority. A target with another scheme is safe iff that scheme is http(s) and the target names the host's authority |
| `Utils.RelativeReferenceSafe` | sampleapp/utils.py:32-33 | a target without scheme and authority ("/account") is safe exactly when the host URL is http or https |
| `Utils.MissingTargetSafe` | sampleapp/blueprints/public/views.py:66-69 | a missing (`None`) or empty `next` resolves to the host URL and is safe exactly when the host URL is http or https |
| `Utils.ForeignAuthorityUnsafe` | sampleapp/utils.py:33 | a target naming an authority other than the host's is unsafe, whether absolute or network-path |
| `Utils.ForeignSchemeUnsafe` | sampleapp/utils.py:33 | a target whose own scheme is not http or https is unsafe, even when it names the host |
| `Utils.JoinNonStrict` | sampleapp/utils.py:32 | the join matches strict RFC 3986 resolution for every target except one that repeats the host's (non-empty) scheme without an authority; such a target stays on the host, where strict resolution would drop the authority |
| `Utils.JoinIdempotent` | sampleapp/utils.py:32 | joining the result of a join again changes nothing |
| `App.CheckSecretKey` | sampleapp/app.py:99-105 | the request proceeds iff debug is on or the key is non-default and at least 32 characters long; every abort has status 500; the abort message is the default-value one exactly when the key is the default |
| `App.DebugNeverAborts` | sampleapp/app.py:101 | in debug mode the check never aborts, whatever the key |
| `App.DefaultKeyAborts` | sampleapp/app.py:102-105 | outside debug the default key aborts with 500 and "SECRET_KEY cannot be default value", whatever its length, so a short default key never gets the too-short message |
| `App.ShortKeyAborts` | sampleapp/app.py:104-105 | outside debug a non-default key shorter than 32 characters aborts with 500 and "SECRET_KEY too short" |
| `App.TemplateName` | sampleapp/app.py:70 | the code can be read back from the template name "<code>.html" |
| `App.TemplateNameInjective` | sampleapp/app.py:70 | distinct codes get distinct templates |
| `App.RenderError` | sampleapp/app.py:66-70 | the status is the error's code, or 500 when it has none, and the rendered template is exactly "<status>.html", from which the status reads back |
| `App.RenderErrorWithoutCode` | sampleapp/app.py:69-70 | an error without a code renders "500.html" with status 500 |
| `App.Application.constructor` | sampleapp/app.py:27 | a new application has no error handlers |
| `App.Application.RegisterErrorHandlers` | sampleapp/app.py:63-74 | the handler is added for 401, 404 and 500, and for no other code |
| `App.CreateApp` | sampleapp/app.py:22-31 | a freshly created application handles exactly the codes 401, 404 and 500 |

## Left out

- Lower: only ASCII letters are lower-cased, while Python's `str.lower` maps other letters too. No non-ASCII character lower-cases to a letter or digit of any of the twelve words, so the set of accepted strings is the same. Only the normalised text quoted in the error message can differ.
- AsBool: truthiness is modelled for `str`, `bool`, `int`, `bytes` and `None`. Floats, containers and objects with `__bool__` or `__len__` are not modelled.
- Utils.Join: only the scheme and authority of the joined URL are computed. Path merging and dot-segment removal do not affect the guard and are not modelled.
- Utils.Join: for a base scheme outside `urllib`'s `uses_relative` list, `urljoin` returns the target unchanged. The model instead gives such a target the base's scheme. Both results fail the guard unless the base is http or https, and those schemes are in the list.
- Parsing a URL string into its parts, including `urlparse`'s lower-casing of the scheme and its removal of leading control characters, is not modelled. The guard takes the parsed parts.
- `request.host_url` is a parameter of `IsSafeUrl`, not read from a request.
- `DEFAULT_SECRET_KEY` is defined in `sampleapp/settings.py`, which is not part of this model. It is a parameter of `CheckSecretKey`.
- CheckSecretKey: the key is modelled as a `str`, whose length `len` counts in characters. A key that is not a `str` is not modelled: `None` makes `len` raise `TypeError`, and a `bytes` key is counted in bytes and never equals a `str` default.
- `abort(Response(...))` raises an exception in Flask. The model returns an `Abort` value instead. Installing the check with `before_request` is not modelled.
- App.RenderError: an error whose `code` attribute exists but is `None` is not modelled (the code is either an integer or absent). Rendering of the template's HTML is left out.
- Flask's dispatch of a raised error to the handler registered for its code is not modelled. The model records only which codes have the handler.
- The password-reset routes are stubs (`pass`) in sampleapp/blueprints/public/views.py. Their token signing, expiry and cooldown live in code that is not part of this model, so nothing of them is modelled.
- JWT/HMAC signing and bcrypt hashing are cryptographic libraries and are left out.
- The admin gate and permissions (sampleapp/admin.py, sampleapp/permissions.py) wrap Flask-Admin and Flask-Principal, whose role checks are not part of this model.
- The rest of `create_app` (extensions, blueprints, shell context, CLI commands, template globals, admin views, the login manager's settings) and `load_user` are framework registration and database access.
- The bodies of the views (sessions, forms, flash messages, redirects) are left out. Only the guard they call is modelled.
- Migrations, test fixtures and factories, and the `autoapp.py` entry point are left out, as are mail delivery and error reporting (I/O).
