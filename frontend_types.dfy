/** The front end's shared record types: a finished quiz and a user account with its history. */
module FrontendTypes {
  import opened Wrappers

  /** `UserRole`: `'user'` or `'admin'`. */
  datatype Role = UserRole | AdminRole

  /** One finished quiz as the front end records it. */
  datatype QuizResult = QuizResult(
    id: string,
    totalQuestions: int,
    correctAnswers: int,
    scorePercentage: int,
    topic: string,
    difficulty: string,
    date: string)

  datatype User = User(
    id: string,
    name: string,
    email: string,
    password: string,
    role: Role,
    avatar: Option<string>,
    history: seq<QuizResult>)
}
