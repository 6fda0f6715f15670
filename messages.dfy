/** The replies the handlers send, word for word, except
    `MemberUnstorableText`: the source has no such reply, and the model adds
    it for the corrected member step, which refuses names holding the list
    separator. */
module Messages {
  import opened Text

  // service commands
  function StartText(fullName: string): string {
    "Здравствуйте, " + fullName + "!\n"
    + "Этот бот предназначен для создания отчётов об отсутствии участников групп.\n"
    + "Для получения более подробной справочной информации воспользуйтесь командой \"/help\"."
  }
  const CancelledText: string := "Команда отменена."
  const NothingToCancelText: string := "Команда \"/cancel\" не сработала из-за отсутствия выполняемых команд."
  const AskUtcOffsetText: string := "Введите смещение UTC."
  const OffsetNotIntegerText: string := "Смещение UTC должно быть целым числом, введите другое."
  const OffsetOutOfBoundsText: string := "Смещение UTC выходит за границы допустимых значений, введите другое."
  const OffsetSetText: string := "Смещение UTC успешно установлено."

  // the content-type gate
  const NotTextText: string := "Ваше сообщение не является текстом, отправьте другое."

  // shared by several flows
  const ChooseGroupText: string := "Выберите группу из списка."
  const UnknownGroupText: string := "Вы не создавали группу с таким названием, введите другое."

  // creating a group
  const TooManyGroupsText: string := "Вы создали максимальное количество групп."
  const AskGroupNameText: string := "Введите название группы."
  const GroupNameTooLongText: string := "Название группы слишком длинное, введите другое."
  const GroupNameTakenText: string := "Вы уже создавали группу с таким названием, введите другое."
  const GroupCreatedText: string := "Группа успешно создана."

  // adding members
  const NoGroupToFillText: string := "Вы не создавали группу, в которую можно добавить участников."
  const GroupFullText: string :=
    "Добавление участников в группу прервано, так как в выбранной группе содержится максимальное количество участников."
  const AskMembersText: string := "Введите имена участников."
  const MemberTooLongText: string := "Участник не был добавлен, по причине превышения размера имени."
  const MemberPresentText: string := "Участник не был добавлен, по причине существования в группе."
  /** The reply to a name holding the list separator (the corrected step). */
  const MemberUnstorableText: string := "Участник не был добавлен, по причине недопустимого имени."
  const AddingDoneText: string := "Добавление участников в группу закончено."
  const MemberAddedText: string := "Участник успешно добавлен в группу."

  // deleting a group
  const NoGroupToDeleteText: string := "Вы не создавали группу, которую можно удалить."
  const ConfirmDeleteText: string :=
    "Вы уверены, что хотите удалить группу?\n"
    + "Для подтверждения нажмите на кнопку с текстом \"Удалить\".\n"
    + "Для отмены нажмите на кнопку с текстом \"Отмена\"."
  const DeleteAnswer: string := "Удалить"
  const CancelAnswer: string := "Отмена"
  const WrongAnswerText: string := "Неверный ответ, отправьте другой."
  const GroupDeletedText: string := "Группа успешно удалена."
  const DeleteCancelledText: string := "Удаление группы отменено."

  // removing members
  const NoGroupToEmptyText: string := "Вы не создавали группу, из которой можно удалить участников."
  const NothingToRemoveText: string := "Удаление участников отменено, так как в группе отсутствуют участники."
  const ChooseMembersText: string := "Выберите участников из списка."
  const MemberAbsentText: string := "Участник не был удален, по причине отсутствия в группе."
  const RemovingDoneText: string := "Удаление участников из группы закончено."
  const GroupEmptiedText: string := "Удаление участников из группы закончено, так как в группе нет участников."
  const MemberRemovedText: string := "Участник успешно удалён из группы."

  // assigning the reports recipient
  const NoGroupToAssignText: string := "Вы не создавали группу, для которой можно назначить получателя отчётов."
  const AskRecipientText: string := "Нажмите на кнопку и выберите получателя отчётов."
  const UnknownRecipientText: string := "Вы не можете выбирать пользователя, который не запускал бота."
  const RecipientAssignedText: string := "Получатель отчётов успешно назначен."

  // creating a report
  const NoGroupToReportText: string := "Вы не создавали группу, для которой можно создать отчёт."
  const NoMembersToReportText: string := "Создание отчёта отменено, так как в группе отсутствуют участники."
  function ReportStartText(group: string): string {
    "Создание отчёта для группы \"" + group + "\"."
  }
  const PickMembersText: string :=
    "Для добавления участника в отчёт, нажмите кнопку с его именем.\n"
    + "Для отправки отчёта нажмите кнопку \"Отправить\"."
  function ReportChangedText(group: string): string {
    "Изменения в сегодняшнем отчёте для группы \"" + group + ".\""
  }
  const NoticeFailedText: string := "Невозможно отправить сообщение получателю."
  function NobodyAbsentText(group: string): string {
    "Сегодня в группе \"" + group + "\" отсутствующих нет."
  }
  /** The report itself: the names sorted, one per line. */
  function AbsentText(group: string, sorted: seq<string>): string {
    "Сегодня в группе \"" + group + "\" отсутствуют:\n" + Join(sorted, Sep) + "."
  }
  const ReportFailedText: string := "Невозможно отправить отчёт получателю."
  const ReportSentText: string := "Отчёт успешно отправлен."
  function PickedText(member: string): string {
    "Участник \"" + member + "\" добавлен в отчёт."
  }
  function AlreadyPickedText(member: string): string {
    "Участник \"" + member + "\" уже добавлен в отчёт."
  }

  // statistics
  const NotRecipientText: string := "Вы не назначены получателем отчётов ни в одной группе."
  const NotRecipientOfText: string :=
    "Вы не назначены получателем отчётов в группе с таким названием, выберите другую."
  const ChoosePeriodText: string := "Выберите период времени."
  const WrongPeriodText: string := "Неверный промежуток времени, выберите другой."
}
