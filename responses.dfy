/** The HTTP responses of the handlers: a status code and the JSON (or text)
    body, with the fixed bodies the handlers share. */
module Responses {
  import opened Models
  import opened Validation

  datatype Body =
      /** `{"status", "message"}` */
    | Message(status: string, message: string)
      /** `{"status", "statusCode", "message"}` */
    | CodedMessage(status: string, statusCode: int, message: string)
      /** `{"errors": [{field, message}, ...]}` */
    | Errors(errors: seq<ValidationError>)
      /** A plain-text body (SendString). */
    | Text(text: string)
      /** A body that is a single JSON string. */
    | JsonString(text: string)
      /** `{"status": "success", "message", "data": {"accessToken", "user"}}` */
    | Session(message: string, accessToken: string, user: UserView)
      /** `{"status": "success", "message", "data": {"user"}}` */
    | UserData(message: string, user: UserView)
      /** `{"status": "success", "message", "data": {"organisations": [...]}}` */
    | OrgList(message: string, organisations: seq<OrgView>)
      /** `{"status": "success", "message", "data": {orgId, name, description}}` */
    | OrgData(message: string, org: OrgView)

  datatype Response = Response(code: int, body: Body)

  const RegistrationFailed := Response(400, CodedMessage("Bad Request", 400, "Registration unsuccessful"))
  const AuthenticationFailed := Response(400, CodedMessage("Bad request", 400, "Authentication failed"))
  const ClientError := Response(400, CodedMessage("Bad request", 400, "Client error"))
  const MissingParam := Response(400, Message("error", "Missing Param"))
  const BadUserId := Response(400, Message("error", "Error parsing the doctor ID"))
  const Unauthorized := Response(401, Message("error", "Unauthorized"))
  const UserNotFound := Response(404, CodedMessage("error", 404, "User not found"))
  const OrgNotFound := Response(404, CodedMessage("error", 404, "Organisation not found"))
  const HashFailed := Response(500, Message("error", "An error occcured while hashing password"))
  const TokenFailed := Response(500, Message("error", "An error occurred while generating token!"))
  const OrgInsertFailed := Response(500, Text("Failed to create organization"))
  const UserInsertFailed := Response(500, JsonString("An error occurred while creating user"))

  /** A 422 response listing every validation failure. */
  function Unprocessable(errors: seq<ValidationError>): Response
  {
    Response(422, Errors(errors))
  }
}
