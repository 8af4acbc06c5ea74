/** FastAPI's `HTTPException`: a status code and a detail message. */
module Http {

  datatype HttpError = HttpError(status: nat, detail: string)
}
