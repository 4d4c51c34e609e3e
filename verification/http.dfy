/** The slice of net/http the handlers use: methods, status codes and replies
    whose JSON body is an error, a message, or a payload. */
module Http {
  datatype Method = GET | POST | PUT | PATCH | DELETE | OPTIONS | HEAD | OtherMethod(name: string)

  const StatusOK: nat := 200
  const StatusCreated: nat := 201
  const StatusNoContent: nat := 204
  const StatusBadRequest: nat := 400
  const StatusUnauthorized: nat := 401
  const StatusForbidden: nat := 403
  const StatusNotFound: nat := 404
  const StatusMethodNotAllowed: nat := 405
  const StatusConflict: nat := 409
  const StatusInternalServerError: nat := 500

  /** A one-entry JSON object `{key: text}` flagging an error, one carrying a
      message, or a structured payload. */
  datatype Body<T> = Error(key: string, text: string) | Message(key: string, text: string) | Data(value: T)

  datatype Reply<T> = Reply(status: nat, body: Body<T>)

  /** `{"erro": text}`, the error shape of most handlers. */
  function Erro<T>(status: nat, text: string): Reply<T> {
    Reply(status, Error("erro", text))
  }

  /** `{"error": text}`, the English-keyed error shape of some handlers. */
  function ErrorEn<T>(status: nat, text: string): Reply<T> {
    Reply(status, Error("error", text))
  }

  /** `{"mensagem": text}`. */
  function Mensagem<T>(status: nat, text: string): Reply<T> {
    Reply(status, Message("mensagem", text))
  }

  function Ok<T>(status: nat, value: T): Reply<T> {
    Reply(status, Data(value))
  }

  predicate IsError<T>(r: Reply<T>) {
    r.body.Error?
  }
}
