/** The seeded award catalog of src/features/awards/store/awardsAtoms.ts: the
    default value of the `awards` atom. */
module AwardCatalog {
  import opened Types

  function Locked(id: int, name: string, description: string, icon: string, c: Criteria): Award
  {
    Award(id, name, description, icon, None, c)
  }

  /** The default value of the atom: twelve awards, every one locked. */
  function SeededAwards(): (r: seq<Award>)
    ensures |r| == 12
    ensures forall i :: 0 <= i < |r| ==> r[i].unlockedAt == None
  {
    [
      Locked(1, "Primera tarea", "Completa tu primera tarea", "mdi:check-circle",
             Criteria(TasksCompleted, 1, None)),
      Locked(2, "Empezando", "Completa 5 tareas", "mdi:star",
             Criteria(TasksCompleted, 5, None)),
      Locked(3, "Productivo", "Completa 10 tareas", "mdi:trophy",
             Criteria(TasksCompleted, 10, None)),
      Locked(4, "Imparable", "Completa 25 tareas", "mdi:rocket",
             Criteria(TasksCompleted, 25, None)),
      Locked(5, "Maestro de tareas", "Completa 50 tareas", "mdi:crown",
             Criteria(TasksCompleted, 50, None)),
      Locked(8, "Profesional dedicado", "Completa 10 tareas de trabajo", "mdi:briefcase",
             Criteria(CategoryMastery, 10, Some(Trabajo))),
      Locked(9, "Maestro del trabajo", "Completa 20 tareas de trabajo", "mdi:office-building",
             Criteria(CategoryMastery, 20, Some(Trabajo))),
      Locked(10, "Vida equilibrada", "Completa 10 tareas personales", "mdi:heart",
             Criteria(CategoryMastery, 10, Some(Personal))),
      Locked(11, "Estudiante dedicado", "Completa 10 tareas de estudio", "mdi:school",
             Criteria(CategoryMastery, 10, Some(Estudio))),
      Locked(12, "Académico experto", "Completa 20 tareas de estudio", "mdi:book-open-page-variant",
             Criteria(CategoryMastery, 20, Some(Estudio))),
      Locked(13, "Empezando", "Primera tarea creada", "mdi:book-open-page-variant",
             Criteria(TasksCreated, 1, None)),
      Locked(14, "5 tareas", "5 tareas creadas", "mdi:book-open-page-variant",
             Criteria(TasksCreated, 5, None))
    ]
  }

  /** The twelve ids are 1-5 and 8-14, pairwise distinct. */
  lemma SeededIdsDistinct()
    ensures |SeededAwards()| == 12
    ensures forall i :: 0 <= i < 5 ==> SeededAwards()[i].id == i + 1
    ensures forall i :: 5 <= i < 12 ==> SeededAwards()[i].id == i + 3
    ensures forall i, j :: 0 <= i < j < |SeededAwards()| ==> SeededAwards()[i].id != SeededAwards()[j].id
  {
  }

  /** Names are not an identity: two different awards are called "Empezando". */
  lemma SeededNamesRepeat()
    ensures SeededAwards()[1].name == SeededAwards()[10].name == "Empezando"
    ensures SeededAwards()[1].id != SeededAwards()[10].id
  {
  }

  /** Every target is at least 1, and every `categoryMastery` award names a category. */
  lemma SeededCriteriaWellFormed()
    ensures forall i :: 0 <= i < |SeededAwards()| ==> SeededAwards()[i].criteria.target >= 1
    ensures forall i :: 0 <= i < |SeededAwards()| && SeededAwards()[i].criteria.kind == CategoryMastery
              ==> SeededAwards()[i].criteria.category.Some?
  {
  }

  /** The `tasksCompleted` awards are the first five, with targets 1, 5, 10,
      25, 50: strictly increasing in catalog order. */
  lemma SeededCompletedTargets()
    ensures forall i :: 0 <= i < |SeededAwards()| ==>
              (SeededAwards()[i].criteria.kind == TasksCompleted <==> i < 5)
    ensures SeededAwards()[0].criteria.target == 1 && SeededAwards()[1].criteria.target == 5
    ensures SeededAwards()[2].criteria.target == 10 && SeededAwards()[3].criteria.target == 25
    ensures SeededAwards()[4].criteria.target == 50
    ensures forall i, j :: 0 <= i < j < 5 ==> SeededAwards()[i].criteria.target < SeededAwards()[j].criteria.target
  {
  }
}
