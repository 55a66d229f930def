/**
 * What a route handler answers: an HTTP status, the JSON body, and the value the handler puts
 * in the `linkforge_session` cookie, if it sets one. Cookie attributes are not modelled.
 */
module Http {
  import opened Common
  import opened Store

  /** A JSON value of a request body, for fields whose handling depends on their type. */
  datatype JsonValue = JNull | JBool(b: bool) | JNumber(n: int) | JString(s: string)

  datatype Body =
    | ErrorMessage(message: string)                 // { error: message }
    | LinkList(links: seq<LinkRow>)                 // { links }
    | LinksChanged(links: seq<LinkRow>)             // { success: true, links }
    | Success                                       // { success: true }
    | SignedIn(username: string)                    // { success: true, username }
    | Uncaught                                      // an exception escaped a handler without try/catch

  datatype Response = Response(status: int, body: Body, session: Option<string>)

  /** The messages the handlers answer with. */
  const MustSignIn := "Giriş yapmalısınız"
  const TitleAndUrlRequired := "Başlık ve URL gerekli"
  const LinkIdRequired := "Link ID gerekli"
  const FillAllFields := "Tüm alanları doldurun"
  const UsernameLength := "Kullanıcı adı 3-30 karakter olmalı"
  const UsernameCharset := "Kullanıcı adı sadece küçük harf, rakam, _ ve - içerebilir"
  const PasswordLength := "Şifre en az 6 karakter olmalı"
  const EmailTaken := "Bu email zaten kullanılıyor"
  const UsernameTaken := "Bu kullanıcı adı zaten alınmış"
  const UsernameReserved := "Bu kullanıcı adı kullanılamaz"
  const ServerError := "Sunucu hatası"
  const EmailAndPasswordRequired := "Email ve şifre gerekli"
  const WrongCredentials := "Email veya şifre hatalı"
  const ClickFailed := "Hata"

  function Error(status: int, message: string): Response
  {
    Response(status, ErrorMessage(message), None)
  }

  /** The answer of every handler that needs a session when there is none. */
  const Unauthorized := Error(401, MustSignIn)

  /** What the framework answers when a handler without try/catch throws. */
  const Crashed := Response(500, Uncaught, None)
}
